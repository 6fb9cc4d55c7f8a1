/** The subscriber as the program runs it: one startup for ever, and handlers that change the shared table. */
module Subscribers {
  import opened AddressTables
  import opened Controller
  import opened Entries
  import opened Replay
  import Machine = TableMachine
  import opened Tables

  /** The outcomes up to and including the first failure. */
  function Consumed(outcomes: seq<bool>): (r: seq<bool>)
    ensures r <= outcomes && OnlyLastFails(r)
    ensures |r| < |outcomes| ==> r != [] && !r[|r| - 1]
  {
    if outcomes == [] then [] else
    if !outcomes[0] then [false] else [true] + Consumed(outcomes[1..])
  }

  lemma {:induction false} ConsumedUpTo(outcomes: seq<bool>, n: nat)
    requires n < |outcomes| && forall i :: 0 <= i < n ==> outcomes[i]
    ensures !outcomes[n] || n == |outcomes| - 1 ==> Consumed(outcomes) == outcomes[..n + 1]
  {
    if n > 0 {
      ConsumedUpTo(outcomes[1..], n - 1);
    }
  }

  lemma RunOfOne(cfg: Machine.Config, s: Machine.State<Table>, e: Machine.Event)
    ensures Machine.TableRun(cfg, s, [e]) == Machine.TableStep(cfg, s, e)
  {
    assert [e][..0] == [];
  }

  class Subscriber {
    const table: AddressTable
    var ran: bool
    var connected: bool
    var log: seq<Effect>
    var timers: nat

    constructor (table: AddressTable)
      ensures this.table == table && !ran && !connected && log == [] && timers == 0
    {
      this.table := table;
      ran, connected, log, timers := false, false, [], 0;
    }

    method Close()
      modifies this`log
      ensures log == old(log) + if connected then [CloseConnection] else []
    {
      if connected {
        log := log + [CloseConnection];
      }
    }

    /** The body run under `once`: stops at the first call that fails. */
    method StartUp(connect: bool, publish: bool, greet: bool, flush: bool, register: bool, unregister: bool)
      returns (failed: bool)
      requires !connected && log == [] && timers == 0
      modifies this`connected, this`log, this`timers
      ensures failed <==> !(connect && publish && greet && flush && register && unregister)
      ensures connected == connect
      ensures timers == if failed then 0 else 1
      ensures log == Calls(Consumed([connect, publish, greet, flush, register, unregister]))
    {
      hide Consumed;
      ghost var o := [connect, publish, greet, flush, register, unregister];
      log := log + [Call(Connect, connect)];
      assert log == Calls(o[..1]);
      ConsumedUpTo(o, 0);
      if !connect { return true; }
      connected := true;
      log := log + [Call(PublishStart, publish)];
      assert log == Calls(o[..2]);
      ConsumedUpTo(o, 1);
      if !publish { return true; }
      log := log + [Call(SubscribeGreet, greet)];
      assert log == Calls(o[..3]);
      ConsumedUpTo(o, 2);
      if !greet { return true; }
      log := log + [Call(FlushGreet, flush)];
      assert log == Calls(o[..4]);
      ConsumedUpTo(o, 3);
      if !flush { return true; }
      log := log + [Call(SubscribeRegister, register)];
      assert log == Calls(o[..5]);
      ConsumedUpTo(o, 4);
      if !register { return true; }
      log := log + [Call(SubscribeUnregister, unregister)];
      assert log == Calls(o[..6]);
      ConsumedUpTo(o, 5);
      if !unregister { return true; }
      timers := 1;
      return false;
    }

    /**
     However the calls turn out, the first run leaves the log of the one-shot startup, and
     any later run does nothing and reports no failure.
     */
    method RunOnce(connect: bool, publish: bool, greet: bool, flush: bool, register: bool, unregister: bool)
      returns (failed: bool)
      requires !ran ==> !connected && log == [] && timers == 0
      modifies this`ran, this`connected, this`log, this`timers
      ensures ran
      ensures old(ran) ==> !failed && log == old(log) && timers == old(timers) && connected == old(connected)
      ensures !old(ran) ==>
                && log == StartupLog(Consumed([connect, publish, greet, flush, register, unregister]))
                && (failed <==> !(connect && publish && greet && flush && register && unregister))
                && (timers == if failed then 0 else 1)
    {
      failed := false;
      if !ran {
        ran := true;
        failed := StartUp(connect, publish, greet, flush, register, unregister);
      }
      ghost var o := [connect, publish, greet, flush, register, unregister];
      ghost var r := Consumed(o);
      assert r == o[..|r|];
      assert o[0] == connect && o[1] == publish && o[2] == greet;
      assert o[3] == flush && o[4] == register && o[5] == unregister;
      assert |r| == 6 ==> r == o;
      assert |r| >= 1;
      assert r[0] == connect;
      if failed {
        Close();
      }
    }

    /**
     The handlers do to the table what the controller's events emit once their subscriptions are live. The
     clock is read for each hostname; if it stands still this is the event emitted, and if it runs, a batch
     that is a schedule of the machine.
     */
    method OnRegister(
        payload: Payload, readings: seq<int>, ghost now: int, ghost c: Control, ghost pruner: Machine.Pruner)
      requires table.Valid() && Delivers(c, SubscribeRegister)
      requires payload.Decoded? ==> |readings| == |payload.infraNames|
      modifies table`addresses, table.Arrays()
      ensures table.Valid() && fresh(table.Arrays() - old(table.Arrays()))
      ensures table.View() == if payload.Decoded? && payload.ip != ""
                              then AddEach(old(table.View()), payload.infraNames, payload.ip, readings)
                              else old(table.View())
      ensures (payload.Decoded? ==> readings == Still(payload.infraNames, now)) ==>
                StateOf(table, now, pruner)
                == Machine.TableRun(ConfigOf(table), old(StateOf(table, now, pruner)), Emit(c, Register(payload)))
    {
      if payload.Undecodable? || payload.ip == "" || |payload.infraNames| == 0 {
        return;
      }
      hide AddressTable.View, AddressTable.Separate;
      RunOfOne(ConfigOf(table), StateOf(table, now, pruner), Machine.Add(payload.infraNames, payload.ip));
      AddEachAtOnce(table.View(), payload.infraNames, payload.ip, now);
      table.Add(payload.infraNames, payload.ip, readings);
    }

    method OnUnregister(payload: Payload, ghost now: int, ghost c: Control, ghost pruner: Machine.Pruner)
      requires table.Valid() && Delivers(c, SubscribeUnregister)
      modifies table`addresses, table.Arrays()
      ensures table.Valid() && table.Arrays() <= old(table.Arrays())
      ensures table.View() == if payload.Decoded?
                              then RemoveAll(old(table.View()), payload.infraNames, payload.ip)
                              else old(table.View())
      ensures StateOf(table, now, pruner)
           == Machine.TableRun(ConfigOf(table), old(StateOf(table, now, pruner)), Emit(c, Unregister(payload)))
    {
      if payload.Undecodable? || |payload.infraNames| == 0 {
        return;
      }
      hide AddressTable.View, AddressTable.Separate;
      RunOfOne(ConfigOf(table), StateOf(table, now, pruner), Machine.Remove(payload.infraNames, payload.ip));
      table.Remove(payload.infraNames, payload.ip);
    }

    method OnDisconnect(ghost now: int, ghost c: Control, ghost pruner: Machine.Pruner)
      requires table.Valid()
      modifies table`pausedPruning
      ensures table.Valid() && table.pausedPruning && table.View() == old(table.View())
      ensures StateOf(table, now, pruner)
           == Machine.TableRun(ConfigOf(table), old(StateOf(table, now, pruner)), Emit(c, Disconnected))
    {
      RunOfOne(ConfigOf(table), StateOf(table, now, pruner), Machine.Pause);
      table.PausePruning();
      assert table.View() == old(table.View());
    }

    /** The start message is sent again, and its outcome `ok` is of no consequence to the table. */
    method OnReconnect(ok: bool, now: int, ghost c: Control, ghost pruner: Machine.Pruner)
      requires table.Valid()
      modifies this`log, table`pausedPruning, table`lastResume
      ensures table.Valid() && !table.pausedPruning && table.lastResume == Some(now)
      ensures table.View() == old(table.View())
      ensures log == old(log) + [Call(PublishStart, ok)]
      ensures StateOf(table, now, pruner)
           == Machine.TableRun(ConfigOf(table), old(StateOf(table, now, pruner)), Emit(c, Reconnected))
    {
      RunOfOne(ConfigOf(table), StateOf(table, now, pruner), Machine.Resume);
      table.ResumePruning(now);
      log := log + [Call(PublishStart, ok)];
      assert table.View() == old(table.View());
    }
  }
}
