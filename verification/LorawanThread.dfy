/**
 The LoRaWAN thread's handlers as they run (app/src/lorawan/lorawan.c).  Every method is proved to
 take exactly the steps of the session protocol, so that what holds of all its runs holds here.
 */
module LorawanThread {
  import opened CrcIeee
  import opened LorawanSession

  const EVENT_QUE_SIZE: nat := 8
  const MSG_QUE_SIZE: nat := 4

  /** A lorawan_message. */
  datatype Frame = Frame(port: bv8, data: seq<bv8>, confirmed: bool, joinAttempt: bool)

  /** The newest `n` elements. */
  function Newest<T>(s: seq<T>, n: nat): seq<T> {
    if |s| <= n then s else s[|s| - n..]
  }

  /** Queueing two batches one after the other keeps what queueing them together would keep. */
  lemma NewestTwice<T>(a: seq<T>, b: seq<T>, n: nat)
    ensures Newest(Newest(a, n) + b, n) == Newest(a + b, n)
  {
  }

  class Queue {
    const size: nat
    var items: seq<Frame>

    constructor (size: nat)
      requires size > 0
      ensures Valid() && items == [] && this.size == size
    {
      this.size, items := size, [];
    }

    ghost predicate Valid()
      reads this
    {
      0 < size && |items| <= size
    }

    /** k_msgq_put with K_NO_WAIT. */
    method TryPut(f: Frame) returns (full: bool)
      requires Valid()
      modifies this
      ensures Valid() && (full <==> |old(items)| == size)
      ensures items == if full then old(items) else old(items) + [f]
    {
      full := |items| == size;
      if !full {
        items := items + [f];
      }
    }

    /** Put `f`, dropping the oldest while the queue is full. */
    method PutDroppingOldest(f: Frame)
      requires Valid()
      modifies this
      ensures Valid() && items == Newest(old(items) + [f], size)
    {
      var full := TryPut(f);
      while full
        invariant Valid() && (full ==> |items| == size)
        invariant full ==> Newest(items + [f], size) == Newest(old(items) + [f], size)
        invariant !full ==> items == Newest(old(items) + [f], size)
        decreases if full then 1 + |items| else 0
      {
        items := items[1..];
        full := TryPut(f);
      }
    }
  }

  /** What became of a message; Lost when send_frame fails or flushes MAC commands instead. */
  datatype Outcome = Sent | Lost | Kept | Discarded

  class Lorawan {
    var cfg: Config
    var initialized: bool
    var pending: bool
    var joinedCfg: Option<Activation>
    var attempt: Option<Activation>
    var joining: bool
    var joinFails: nat
    var mode: Mode
    var enabled: bool
    var waitTxDone: bool
    const eventQue: Queue
    const msgQue: Queue
    /** The modem, the joined-configuration record and the modem's stored session. */
    var modem: Modem
    var configured: Config
    var record: Record
    var session: Option<Config>
    /** The frames handed to the modem by send_frame. */
    var sent: seq<Frame>

    /** The k-th answer of the modem or the storage. */
    const answers: nat -> bool
    var asked: nat
    /** What the settings writer sets the k-th time it gets to run. */
    const settings: nat -> seq<Config>
    var turns: nat

    ghost var pc: Pc
    ghost var changes: nat
    ghost var served: nat
    ghost var run: seq<Action>

    constructor (answers: nat -> bool, settings: nat -> seq<Config>)
      ensures At(Now()) && Queues() && pc == Ready && mode == Setup && run == [] && fresh(eventQue) && fresh(msgQue)
      ensures Admissible(run)
      ensures eventQue.items == [] && msgQue.items == [] && sent == []
    {
      this.answers, this.settings := answers, settings;
      cfg, initialized, pending, joinedCfg, attempt := ZeroConfig(), false, false, None, None;
      joining, joinFails, mode, enabled, waitTxDone := false, 0, Setup, false, false;
      modem, configured, record, session, sent := Idle, ZeroConfig(), Absent, None, [];
      asked, turns := 0, 0;
      pc, changes, served, run := Ready, 0, 0, [];
      eventQue := new Queue(EVENT_QUE_SIZE);
      msgQue := new Queue(MSG_QUE_SIZE);
      new;
    }

    ghost function Now(): (s: State)
      reads this
      ensures s.pc == pc
    {
      State(cfg, initialized, pending, joinedCfg, attempt, joining, joinFails, mode, enabled,
        modem, configured, record, session, pc, changes, served)
    }

    /** The run so far is one of the protocol's, and has led to `s`. */
    ghost predicate At(s: State)
      reads this`run
    {
      Run(run) && Exec(run) == s
    }

    /** Note the step that has been taken from `before`. */
    ghost method Note(before: State, a: Action)
      requires At(before) && Next(before, a) == Some(Now())
      modifies this`run
      ensures At(Now()) && run == old(run) + [a]
      ensures old(Admissible(run)) && !(before.pc == Reset && a.Step? && !a.ok) ==> Admissible(run)
    {
      hide Run, Exec, Next, Admissible;
      run := Extend(run, a);
    }

    ghost predicate Queues()
      reads eventQue, msgQue
    {
      && eventQue != msgQue && eventQue.Valid() && eventQue.size == EVENT_QUE_SIZE
      && msgQue.Valid() && msgQue.size == MSG_QUE_SIZE
    }

    /** The body of lorawan_set_configuration, under the mutex. */
    method Configuration(to: Config)
      modifies this`cfg, this`initialized, this`pending, this`changes
      ensures Next(old(Now()), Action.SetConfiguration(to)) == Some(Now())
      ensures cfg == to && initialized && pending == (old(pending) || (old(initialized) && to != old(cfg)))
    {
      hide Next;
      ConfigurationStep(Now(), to);
      var changed := initialized && (to.region != cfg.region || to.joinEui != cfg.joinEui || to.appKey != cfg.appKey);
      cfg := to;
      initialized := true;
      if changed {
        pending := true;
        changes := changes + 1;
      }
    }

    /** lorawan_set_configuration: a change of a configuration that was set before is latched. */
    method SetConfiguration(to: Config)
      requires At(Now())
      modifies this`cfg, this`initialized, this`pending, this`changes, this`run
      ensures old(Admissible(run)) ==> Admissible(run)
      ensures At(Now()) && run == old(run) + [Action.SetConfiguration(to)]
      ensures cfg == to && initialized && pending == (old(pending) || (old(initialized) && to != old(cfg)))
    {
      hide *;
      ghost var before := Now();
      Configuration(to);
      Note(before, Action.SetConfiguration(to));
    }

    /** Between two steps the settings writer may get to run. */
    method Yield()
      requires At(Now())
      modifies this`cfg, this`initialized, this`pending, this`changes, this`run, this`turns
      ensures old(Admissible(run)) ==> Admissible(run)
      ensures At(Now()) && old(run) <= run
      ensures forall k :: |old(run)| <= k < |run| ==> run[k].SetConfiguration?
      ensures (old(pending) ==> pending) && (old(initialized) ==> initialized)
      ensures old(initialized) ==> pending || cfg == old(cfg)
    {
      hide Run, Exec, Next, Admissible;
      var todo := settings(turns);
      turns := turns + 1;
      for i := 0 to |todo|
        invariant At(Now()) && old(run) <= run && (old(Admissible(run)) ==> Admissible(run))
        invariant forall k :: |old(run)| <= k < |run| ==> run[k].SetConfiguration?
        invariant (old(pending) ==> pending) && (old(initialized) ==> initialized)
        invariant old(initialized) ==> pending || cfg == old(cfg)
      {
        SetConfiguration(todo[i]);
      }
    }

    // ---- changes shared by several steps ----

    /** What the modem or the storage answers. */
    method Ask() returns (ok: bool)
      modifies this`asked
      ensures Now() == old(Now())
      ensures ok == answers(old(asked)) && asked == old(asked) + 1
    {
      ok, asked := answers(asked), asked + 1;
    }

    /** smtc_modem_leave_network. */
    method LeaveNetwork() returns (left: bool, forgot: bool)
      modifies this`asked, this`modem, this`session
      ensures Now() == Left(old(Now()), left, forgot)
      ensures left == answers(old(asked)) && forgot == answers(old(asked) + 1) && asked == old(asked) + 2
      ensures modem == (if left then Idle else old(modem)) && session == if left && forgot then None else old(session)
    {
      left, forgot, asked := answers(asked), answers(asked + 1), asked + 2;
      if left {
        modem := Idle;
        session := if forgot then None else session;
      }
    }

    method DropAttempt()
      modifies this`joining, this`attempt
      ensures Now() == old(Now()).(joining := false, attempt := None) && !joining && attempt == None
    {
      joining := false;
      attempt := None;
    }

    method SetJoinFails(n: nat)
      modifies this`joinFails
      ensures Now() == old(Now()).(joinFails := n) && joinFails == n
    {
      joinFails := n;
    }

    ghost method GoTo(next: Pc)
      modifies this`pc
      ensures Now() == old(Now()).(pc := next) && pc == next
    {
      pc := next;
    }

    // ---- the steps of prv_start_join ----

    /** A join is under way with the desired configuration, unless that has changed since and the change is pending. */
    ghost predicate JoinsLatest()
      reads this`modem, this`configured, this`joining, this`pending, this`cfg
    {
      modem == Joining(configured) && joining && (pending || configured == cfg)
    }

    lemma JoinsLatestIf()
      ensures modem == Joining(configured) && joining && (pending || configured == cfg) ==> JoinsLatest()
    {
    }

    /** Prevent an old record from being paired with the session to come. */
    method DropRecord() returns (ok: bool)
      requires pc == DeleteRecord
      modifies this`asked, this`record, this`joinedCfg, this`pc
      ensures Next(old(Now()), Step(ok, false)) == Some(Now())
      ensures if ok then pc == Configure && record == Absent && joinedCfg == None else pc == Ready
      ensures ok == answers(old(asked)) && asked == old(asked) + 1
    {
      hide Next;
      ghost var before := Now();
      ok, asked := answers(asked), asked + 1;
      DropRecordStep(before, ok);
      if ok {
        record := Absent;
        joinedCfg := None;
      }
      pc := if ok then Configure else Ready;
    }

    /** Under the mutex: configure the modem and take the pending change off. */
    method ConfigureModem() returns (ok: bool)
      requires pc == Configure
      modifies this`asked, this`configured, this`attempt, this`pending, this`pc
      ensures Next(old(Now()), Step(ok, false)) == Some(Now())
      ensures ok ==> pc == Pc.JoinNetwork(old(pending), changes) && configured == cfg && attempt == Some(Act(cfg))
      ensures !ok ==> pc == Ready && pending == old(pending)
      ensures ok == answers(old(asked)) && asked == old(asked) + 1
    {
      hide Next, Crc32;
      ghost var before := Now();
      ok, asked := answers(asked), asked + 1;
      ConfigureStep(before, ok);
      pc := if ok then Pc.JoinNetwork(pending, changes) else Ready;
      if ok {
        configured := cfg;
        attempt := Some(Activation(cfg.region, cfg.joinEui, Crc32(cfg.appKey)));
        pending := false;
      }
    }

    /** The join is under way. */
    method JoinStarted()
      requires pc.JoinNetwork?
      modifies this`modem, this`joining, this`served
      ensures
        var s := old(Now());
        Now() == s.(modem := Joining(configured), joining := true, served := pc.captured) && configured == s.configured
      ensures modem == Joining(configured) && joining
    {
      modem := Joining(configured);
      joining := true;
      served := pc.captured;
    }

    method JoinNotStarted(wasPending: bool)
      modifies this`attempt, this`pending
      ensures Now() == old(Now()).(attempt := None, pending := old(Now()).pending || wasPending)
      ensures pending == (old(pending) || wasPending)
    {
      attempt := None;
      if wasPending {
        pending := true;
      }
    }

    /** Start the join, or give back the pending change. */
    method JoinNetwork(wasPending: bool) returns (ok: bool)
      requires pc.JoinNetwork? && pc.wasPending == wasPending
      modifies this`asked, this`modem, this`joining, this`attempt, this`pending, this`served, this`pc
      ensures Next(old(Now()), Step(ok, false)) == Some(Now()) && pc == Ready
      ensures ok ==> modem == Joining(configured) && joining && attempt == old(attempt) && pending == old(pending)
      ensures !ok ==> modem == old(modem) && joining == old(joining) && pending == (old(pending) || wasPending)
      ensures ok == answers(old(asked)) && asked == old(asked) + 1
    {
      hide *;
      ghost var before := Now();
      ok := Ask();
      if ok {
        JoinStarted();
      } else {
        JoinNotStarted(wasPending);
      }
      GoTo(Ready);
      JoinNetworkStep(before, ok);
    }

    /** Configure the modem and start the join. */
    method ConfigureAndJoin() returns (ok: bool)
      requires At(Now()) && pc == Configure && initialized
      modifies this`asked, this`turns, this`cfg, this`initialized, this`pending, this`changes, this`run
      modifies this`configured, this`attempt, this`modem, this`joining, this`served, this`pc
      ensures old(Admissible(run)) ==> Admissible(run)
      ensures At(Now()) && pc == Ready && initialized
      ensures ok ==>
        modem == Joining(configured) && joining && attempt == Some(Act(configured)) && (pending || configured == cfg)
      ensures !ok ==> modem == old(modem) && joining == old(joining) && (old(pending) ==> pending)
      ensures ok <==> answers(old(asked)) && answers(old(asked) + 1)
    {
      hide *;
      ghost var before := Now();
      var wasPending := pending;
      ok := ConfigureModem();
      Note(before, Step(ok, false));
      if !ok {
        return;
      }
      Yield();
      before := Now();
      ok := JoinNetwork(wasPending);
      Note(before, Step(ok, false));
    }

    /**
     prv_start_join: started exactly if the storage and the modem give their three consents.  A join
     that is started has the configuration of the moment, and a change made since then is pending; if
     none is started, a change that was pending still is.
     */
    method StartJoin() returns (ok: bool)
      requires At(Now()) && pc == DeleteRecord && initialized
      modifies this`asked, this`turns, this`cfg, this`initialized, this`pending, this`changes, this`run
      modifies this`record, this`joinedCfg, this`configured, this`attempt, this`modem, this`joining, this`served
      modifies this`pc
      ensures old(Admissible(run)) ==> Admissible(run)
      ensures At(Now()) && pc == Ready && initialized
      ensures ok ==>
        modem == Joining(configured) && joining && attempt == Some(Act(configured)) && (pending || configured == cfg)
      ensures ok ==> JoinsLatest() && record == Absent && joinedCfg == None
      ensures !ok ==> modem == old(modem) && joining == old(joining) && (old(pending) ==> pending)
      ensures ok <==> answers(old(asked)) && answers(old(asked) + 1) && answers(old(asked) + 2)
    {
      hide *;
      ghost var before := Now();
      ok := DropRecord();
      Note(before, Step(ok, false));
      if ok {
        Yield();
        ok := ConfigureAndJoin();
        JoinsLatestIf();
      }
    }

    // ---- LORAWAN_EVENT_MESSAGE ----

    /** The first checks of the handler. */
    ghost method TakeMessage(joinAttempt: bool)
      requires pc == Ready && mode != Init
      modifies this`pc
      ensures Next(old(Now()), Message(joinAttempt)) == Some(Now())
      ensures mode != Engine || !enabled ==> pc == Ready
      ensures mode == Engine && enabled && pending ==> pc == if modem.Joined? || joining then Pc.Leave else DeleteRecord
      ensures mode == Engine && enabled && !pending ==> pc == CheckJoined(joinAttempt)
    {
      hide Next;
      MessageStep(Now(), joinAttempt);
      pc :=
        if mode != Engine || !enabled then Ready
        else if pending then (if modem.Joined? || joining then Pc.Leave else DeleteRecord)
        else CheckJoined(joinAttempt);
    }

    /** Leave the network because the activation changed. */
    method LeaveForChange() returns (ok: bool, forgot: bool)
      requires pc == Pc.Leave
      modifies this`asked, this`modem, this`session, this`joining, this`attempt, this`pc
      ensures Next(old(Now()), Step(ok, forgot)) == Some(Now())
      ensures pc == if ok then DeleteRecord else Ready
      ensures ok == answers(old(asked)) && asked == old(asked) + 2
    {
      hide *;
      ghost var before := Now();
      ok, forgot := LeaveNetwork();
      if ok {
        DropAttempt();
        GoTo(DeleteRecord);
      } else {
        GoTo(Ready);
      }
      LeaveStep(before, ok, forgot);
    }

    ghost method FindJoined()
      requires pc.CheckJoined?
      modifies this`pc
      ensures Next(old(Now()), Step(true, false)) == Some(Now())
      ensures pc == if !modem.Joined? && old(pc.joinAttempt) && !joining then DeleteRecord else Ready
    {
      hide Next;
      CheckJoinedStep(Now());
      pc := if !modem.Joined? && pc.joinAttempt && !joining then DeleteRecord else Ready;
    }

    /** An activation change is pending: leave if need be, and start a new join. */
    method Rejoin() returns (ok: bool)
      requires At(Now()) && initialized
      requires pc == if modem.Joined? || joining then Pc.Leave else DeleteRecord
      modifies this`asked, this`turns, this`cfg, this`initialized, this`pending, this`changes, this`run, this`session
      modifies this`record, this`joinedCfg, this`configured, this`attempt, this`modem, this`joining, this`served
      modifies this`pc
      ensures old(Admissible(run)) ==> Admissible(run)
      ensures At(Now()) && pc == Ready && initialized
      ensures
        var leaving, a := old(modem).Joined? || old(joining), old(asked);
        var b := if leaving then a + 2 else a;
        ok <==> (leaving ==> answers(a)) && answers(b) && answers(b + 1) && answers(b + 2)
      ensures ok ==> JoinsLatest()
      ensures !ok && old(pending) ==> pending
    {
      hide *;
      Yield();
      if modem.Joined? || joining {
        ghost var before := Now();
        var forgot;
        ok, forgot := LeaveForChange();
        Note(before, Step(ok, forgot));
        if !ok {
          return;
        }
        Yield();
      }
      ok := StartJoin();
    }

    /** send_frame; only a frame that fits is handed to the modem. */
    method SendFrame(f: Frame) returns (ok: bool)
      modifies this`asked, this`sent, this`waitTxDone
      ensures Now() == old(Now()) && (ok ==> sent == old(sent) + [f] && waitTxDone)
      ensures !ok ==> sent == old(sent)
      ensures ok <==> answers(old(asked)) && answers(old(asked) + 1)
      ensures waitTxDone == (old(waitTxDone) || answers(old(asked)))
    {
      ok := false;
      var accepted, fits := answers(asked), answers(asked + 1);
      asked := asked + 2;
      if accepted {
        if fits {
          sent := sent + [f];
          ok := true;
        }
        waitTxDone := true;
      }
    }

    /** No change was pending: send if joined, else perhaps start a join. */
    method SendOrJoin(f: Frame) returns (o: Outcome)
      requires At(Now()) && initialized && pc == CheckJoined(f.joinAttempt)
      modifies this`asked, this`turns, this`cfg, this`initialized, this`pending, this`changes, this`run, this`sent
      modifies this`waitTxDone
      modifies this`record, this`joinedCfg, this`configured, this`attempt, this`modem, this`joining, this`served
      modifies this`pc
      ensures old(Admissible(run)) ==> Admissible(run)
      ensures At(Now()) && pc == Ready && initialized
      ensures !old(modem).Joined? ==> o == Kept
      ensures old(modem).Joined? ==> modem == old(modem) && (o == Sent || o == Lost)
      ensures sent == if o == Sent then old(sent) + [f] else old(sent)
      ensures o == Sent ==> waitTxDone
      ensures
        var a := old(asked);
        if old(modem).Joined? then o == Sent <==> answers(a) && answers(a + 1)
        else if f.joinAttempt && !old(joining) && answers(a) && answers(a + 1) && answers(a + 2) then JoinsLatest()
        else modem == old(modem) && joining == old(joining)
    {
      hide *;
      Yield();
      ghost var before := Now();
      FindJoined();
      Note(before, Step(true, false));
      if modem.Joined? {
        var ok := SendFrame(f);
        return if ok then Sent else Lost;
      }
      if f.joinAttempt && !joining {
        var started := StartJoin();
      }
      return Kept;
    }

    /** Take up the message: at this moment a session with no change pending has the desired configuration. */
    ghost method BeginMessage(f: Frame)
      requires At(Now()) && pc == Ready && mode != Init
      modifies this`pc, this`run
      ensures old(Admissible(run)) ==> Admissible(run)
      ensures At(Now())
      ensures mode != Engine || !enabled ==> pc == Ready
      ensures mode == Engine && enabled && pending ==> pc == if modem.Joined? || joining then Pc.Leave else DeleteRecord
      ensures mode == Engine && enabled && !pending ==> pc == CheckJoined(f.joinAttempt)
      ensures old(Admissible(run)) && !pending && modem.Joined? ==> Act(modem.with) == Act(cfg)
    {
      hide *;
      ghost var before := Now();
      FieldsAreSafe();
      TakeMessage(f.joinAttempt);
      Note(before, Message(f.joinAttempt));
    }

    /** Send the frame, start a join, or neither. */
    method Decide(f: Frame) returns (o: Outcome)
      requires At(Now()) && pc == Ready && mode != Init && (mode == Engine ==> initialized)
      modifies this`asked, this`turns, this`cfg, this`initialized, this`pending, this`changes, this`run, this`sent
      modifies this`record, this`joinedCfg, this`configured, this`attempt, this`modem, this`joining, this`served
      modifies this`pc
      modifies this`session, this`waitTxDone
      ensures old(Admissible(run)) ==> Admissible(run)
      ensures At(Now()) && pc == Ready && (old(initialized) ==> initialized)
      ensures o == Sent || o == Lost <==> mode == Engine && enabled && !old(pending) && old(modem).Joined?
      ensures o == Discarded <==> mode == Engine && !enabled
      ensures o == Sent || o == Lost ==> modem == old(modem)
      ensures old(Admissible(run)) && (o == Sent || o == Lost) ==> Act(old(modem).with) == Act(old(cfg))
      ensures sent == if o == Sent then old(sent) + [f] else old(sent)
      ensures
        var a := old(asked);
        mode == Engine && enabled && !old(pending) ==>
          if old(modem).Joined? then o == Sent <==> answers(a) && answers(a + 1)
          else if f.joinAttempt && !old(joining) && answers(a) && answers(a + 1) && answers(a + 2) then JoinsLatest()
          else modem == old(modem) && joining == old(joining)
      ensures
        var leaving, a := old(modem).Joined? || old(joining), old(asked);
        var b := if leaving then a + 2 else a;
        mode == Engine && enabled && old(pending) ==>
          if (leaving ==> answers(a)) && answers(b) && answers(b + 1) && answers(b + 2) then JoinsLatest()
          else pending
    {
      hide *;
      BeginMessage(f);
      if mode != Engine {
        return Kept;
      }
      if !enabled {
        return Discarded;
      }
      if pending {
        var started := Rejoin();
        return Kept;
      }
      o := SendOrJoin(f);
    }

    /**
     LORAWAN_EVENT_MESSAGE.  A frame is sent only with the engine running, enabled and joined, no change
     pending at the start, and a session that then has the desired configuration; every frame that is
     not sent is kept as the newest waiting message, unless the module is not enabled or the modem
     refuses it.
     */
    method HandleMessage(f: Frame) returns (o: Outcome)
      requires At(Now()) && Queues() && pc == Ready && mode != Init && (mode == Engine ==> initialized)
      modifies this`asked, this`turns, this`cfg, this`initialized, this`pending, this`changes, this`run, this`sent
      modifies this`record, this`joinedCfg, this`configured, this`attempt, this`modem, this`joining, this`served
      modifies this`pc
      modifies this`session, this`waitTxDone, msgQue
      ensures old(Admissible(run)) ==> Admissible(run)
      ensures At(Now()) && Queues() && pc == Ready && (old(initialized) ==> initialized)
      ensures o == Sent || o == Lost <==> mode == Engine && enabled && !old(pending) && old(modem).Joined?
      ensures o == Discarded <==> mode == Engine && !enabled
      ensures o == Sent || o == Lost ==> modem == old(modem)
      ensures old(Admissible(run)) && (o == Sent || o == Lost) ==> Act(old(modem).with) == Act(old(cfg))
      ensures sent == if o == Sent then old(sent) + [f] else old(sent)
      ensures msgQue.items == if o == Kept then Newest(old(msgQue.items) + [f], 4) else old(msgQue.items)
      ensures
        var a := old(asked);
        mode == Engine && enabled && !old(pending) ==>
          if old(modem).Joined? then o == Sent <==> answers(a) && answers(a + 1)
          else if f.joinAttempt && !old(joining) && answers(a) && answers(a + 1) && answers(a + 2) then JoinsLatest()
          else modem == old(modem) && joining == old(joining)
      ensures
        var leaving, a := old(modem).Joined? || old(joining), old(asked);
        var b := if leaving then a + 2 else a;
        mode == Engine && enabled && old(pending) ==>
          if (leaving ==> answers(a)) && answers(b) && answers(b + 1) && answers(b + 2) then JoinsLatest()
          else pending
    {
      hide Run, Exec, Next, Now, At, Act, Newest, Admissible;
      o := Decide(f);
      if o == Kept {
        msgQue.PutDroppingOldest(f);
      }
    }

    // ---- LORAWAN_INIT and the reset callback ----

    method InitVariables()
      requires pc == Ready && mode == Init
      modifies this`joinFails, this`joining, this`attempt, this`joinedCfg, this`pc
      ensures Next(old(Now()), Step(true, false)) == Some(Now()) && pc == InitModem
      ensures joinedCfg == if record.Intact? then Some(record.activation) else None
    {
      hide Next;
      InitStep(Now());
      joinFails := 0;
      joining := false;
      attempt := None;
      joinedCfg := if record.Intact? then Some(record.activation) else None;
      pc := InitModem;
    }

    /** smtc_app_init: the modem takes up its stored session, or not. */
    method RestoreModem() returns (ok: bool, forgot: bool)
      modifies this`asked, this`modem
      ensures
        var s := old(Now());
        var found := if s.session.Some? then Joined(s.session.value) else Idle;
        Now() == s.(modem := if ok then found else if forgot then Idle else s.modem)
      ensures ok == answers(old(asked)) && asked == old(asked) + 2
      ensures ok ==> modem == if session.Some? then Joined(session.value) else Idle
    {
      ok, forgot, asked := answers(asked), answers(asked + 1), asked + 2;
      modem := if ok then (if session.Some? then Joined(session.value) else Idle) else if forgot then Idle else modem;
    }

    method StartEngine()
      modifies this`enabled, this`mode, this`pc
      ensures Now() == old(Now()).(enabled := true, mode := Engine, pc := Reset)
      ensures enabled && mode == Engine && pc == Reset
    {
      enabled := true;
      mode := Engine;
      pc := Reset;
    }

    method StartModem() returns (ok: bool, forgot: bool)
      requires pc == InitModem
      modifies this`asked, this`modem, this`enabled, this`mode, this`pc
      ensures Next(old(Now()), Step(ok, forgot)) == Some(Now()) && pc == Reset && mode == Engine && enabled
      ensures answers(old(asked)) ==> modem == if session.Some? then Joined(session.value) else Idle
    {
      hide *;
      ghost var before := Now();
      ok, forgot := RestoreModem();
      StartEngine();
      InitModemStep(before, ok, forgot);
    }

    /** LORAWAN_INIT: what was joined is read back before the modem takes up its session. */
    method Initialize()
      requires At(Now()) && pc == Ready && mode == Init && initialized
      modifies this`asked, this`turns, this`cfg, this`initialized, this`pending, this`changes, this`run
      modifies this`joinFails, this`joining, this`attempt, this`joinedCfg, this`modem, this`enabled, this`mode, this`pc
      ensures old(Admissible(run)) ==> Admissible(run)
      ensures At(Now()) && pc == Reset && mode == Engine && enabled && initialized
      ensures joinedCfg == if record.Intact? then Some(record.activation) else None
      ensures answers(old(asked)) ==> modem == if session.Some? then Joined(session.value) else Idle
    {
      hide *;
      ghost var before := Now();
      InitVariables();
      Note(before, Step(true, false));
      Yield();
      before := Now();
      var ok, forgot := StartModem();
      Note(before, Step(ok, forgot));
    }

    /** The joined configuration is compared with the desired one under the mutex. */
    method CompareConfigurations() returns (ok: bool, matches: bool)
      requires pc == Reset
      modifies this`asked, this`joinFails, this`pc
      ensures Next(old(Now()), Step(ok, false)) == Some(Now())
      ensures matches <==> joinedCfg == Some(Act(cfg))
      ensures ok ==>
        pc == if !modem.Joined? then DeleteRecord else if matches then Ready else Pc.Mismatch(joinedCfg.Some?)
      ensures !ok ==> pc == Ready
      ensures ok == answers(old(asked)) && asked == old(asked) + 1
    {
      hide Next, Crc32;
      ok, asked := answers(asked), asked + 1;
      ResetStep(Now(), ok);
      matches := joinedCfg.Some? && SameActivation(joinedCfg.value, cfg);
      if ok {
        joinFails := 0;
        pc := if !modem.Joined? then DeleteRecord else if matches then Ready else Pc.Mismatch(joinedCfg.Some?);
      } else {
        pc := Ready;
      }
    }

    method MarkMismatch()
      requires pc.Mismatch?
      modifies this`pending, this`pc
      ensures Next(old(Now()), Step(true, false)) == Some(Now()) && pending && pc == Pc.DropSession(old(pc.wasValid))
    {
      hide Next;
      MismatchStep(Now());
      pending := true;
      pc := Pc.DropSession(pc.wasValid);
    }

    method LeaveRestored() returns (ok: bool, forgot: bool)
      requires pc.DropSession?
      modifies this`asked, this`modem, this`session, this`pc
      ensures Next(old(Now()), Step(ok, forgot)) == Some(Now())
      ensures pc == if ok && !old(pc.wasValid) then DeleteRecord else Ready
      ensures ok == answers(old(asked)) && asked == old(asked) + 2 && modem == if ok then Idle else old(modem)
    {
      hide *;
      ghost var before := Now();
      ok, forgot := LeaveNetwork();
      GoTo(if ok && !before.pc.wasValid then DeleteRecord else Ready);
      DropSessionStep(before, ok, forgot);
    }

    /** Mark the change and leave the network. */
    method DropRestored() returns (ok: bool)
      requires At(Now()) && pc == Pc.Mismatch(joinedCfg.Some?) && initialized
      modifies this`asked, this`turns, this`cfg, this`initialized, this`pending, this`changes, this`run, this`session
      modifies this`modem, this`pc
      ensures old(Admissible(run)) ==> Admissible(run)
      ensures At(Now()) && initialized && pending && pc == if ok && joinedCfg.None? then DeleteRecord else Ready
      ensures ok == answers(old(asked)) && asked == old(asked) + 2 && modem == if ok then Idle else old(modem)
    {
      hide *;
      ghost var before := Now();
      MarkMismatch();
      Note(before, Step(true, false));
      Yield();
      before := Now();
      var forgot;
      ok, forgot := LeaveRestored();
      Note(before, Step(ok, forgot));
    }

    /** Start a join unless the settings writer comes first. */
    method JoinNext() returns (ok: bool)
      requires At(Now()) && pc == DeleteRecord && initialized
      modifies this`asked, this`turns, this`cfg, this`initialized, this`pending, this`changes, this`run
      modifies this`record, this`joinedCfg, this`configured, this`attempt, this`modem, this`joining, this`served
      modifies this`pc
      ensures old(Admissible(run)) ==> Admissible(run)
      ensures At(Now()) && pc == Ready && initialized
      ensures ok <==> answers(old(asked)) && answers(old(asked) + 1) && answers(old(asked) + 2)
      ensures if ok then JoinsLatest() else modem == old(modem) && (old(pending) ==> pending)
    {
      hide *;
      Yield();
      ok := StartJoin();
    }

    /** The restored session was not joined with what is configured now. */
    method RejectRestored()
      requires At(Now()) && pc == Pc.Mismatch(joinedCfg.Some?) && initialized
      modifies this`asked, this`turns, this`cfg, this`initialized, this`pending, this`changes, this`run, this`session
      modifies this`record, this`joinedCfg, this`configured, this`attempt, this`modem, this`joining, this`served
      modifies this`pc
      ensures old(Admissible(run)) ==> Admissible(run)
      ensures At(Now()) && pc == Ready && initialized
      ensures
        var a, wasValid := old(asked), old(joinedCfg).Some?;
        if answers(a) && !wasValid && answers(a + 2) && answers(a + 3) && answers(a + 4) then JoinsLatest()
        else pending && modem == if answers(a) then Idle else old(modem)
    {
      hide *;
      var wasValid := joinedCfg.Some?;
      Yield();
      var ok := DropRestored();
      if ok && !wasValid {
        var started := JoinNext();
      }
    }

    /** Queue the waiting messages again. */
    method RescheduleMessages()
      requires Queues()
      modifies eventQue, msgQue
      ensures Queues() && msgQue.items == []
      ensures eventQue.items == Newest(old(eventQue.items) + old(msgQue.items), 8)
    {
      ghost var events, msgs := eventQue.items, msgQue.items;
      ghost var n := 0;
      while msgQue.items != []
        invariant Queues() && n <= |msgs| && msgQue.items == msgs[n..]
        invariant eventQue.items == Newest(events + msgs[..n], EVENT_QUE_SIZE)
        decreases |msgQue.items|
      {
        var f := msgQue.items[0];
        msgQue.items := msgQue.items[1..];
        NewestTwice(events + msgs[..n], [f], EVENT_QUE_SIZE);
        assert events + msgs[..n] + [f] == events + msgs[..n + 1];
        eventQue.PutDroppingOldest(f);
        n := n + 1;
      }
    }

    /**
     on_modem_reset.  A restored session is kept, and the waiting messages with it, only if it was
     joined with what is configured now; otherwise the change is marked and the network left, and with
     no join on record, or without a session, a new join is started.
     */
    method OnModemReset() returns (informed: bool, resumed: bool)
      requires At(Now()) && Queues() && pc == Reset && initialized
      modifies this`asked, this`turns, this`cfg, this`initialized, this`pending, this`changes, this`run, this`session
      modifies this`record, this`joinedCfg, this`configured, this`attempt, this`modem, this`joining, this`served
      modifies this`pc
      modifies this`joinFails, eventQue, msgQue
      ensures informed && old(Admissible(run)) ==> Admissible(run)
      ensures At(Now()) && Queues() && pc == Ready && initialized
      ensures resumed <==> informed && old(modem).Joined? && old(joinedCfg) == Some(Act(old(cfg)))
      ensures resumed ==> modem == old(modem) && cfg == old(cfg) && msgQue.items == []
      ensures resumed ==> eventQue.items == Newest(old(eventQue.items) + old(msgQue.items), 8)
      ensures !resumed ==> msgQue.items == old(msgQue.items) && eventQue.items == old(eventQue.items)
      ensures informed == answers(old(asked))
      ensures
        var a, wasValid := old(asked), old(joinedCfg).Some?;
        informed && old(modem).Joined? && !resumed ==>
          if answers(a + 1) && !wasValid && answers(a + 3) && answers(a + 4) && answers(a + 5) then JoinsLatest()
          else pending && modem == if answers(a + 1) then Idle else old(modem)
      ensures
        var a := old(asked);
        informed && !old(modem).Joined? ==>
          if answers(a + 1) && answers(a + 2) && answers(a + 3) then JoinsLatest() else modem == old(modem)
    {
      hide *;
      ghost var before := Now();
      var matches;
      informed, matches := CompareConfigurations();
      Note(before, Step(informed, false));
      resumed := informed && modem.Joined? && matches;
      if resumed {
        RescheduleMessages();
      } else if informed && modem.Joined? {
        RejectRestored();
      } else if informed {
        var started := JoinNext();
      }
    }

    // ---- joined ----

    method ModemAccepts()
      requires pc == Ready && mode == Engine && modem.Joining?
      modifies this`modem, this`pc
      ensures Next(old(Now()), Accept) == Some(Now()) && modem == Joined(old(modem.with))
      ensures pc == SessionDue(modem.with)
    {
      hide Next;
      AcceptStep(Now());
      modem := Joined(modem.with);
      pc := SessionDue(modem.with);
    }

    method ModemStoresSession() returns (ok: bool)
      requires modem.Joined? && pc == SessionDue(modem.with)
      modifies this`asked, this`session, this`pc
      ensures Next(old(Now()), Step(ok, false)) == Some(Now()) && pc == JoinedCallback
      ensures ok == answers(old(asked)) && asked == old(asked) + 1 && session == if ok then Some(modem.with) else None
    {
      hide Next;
      ok, asked := answers(asked), asked + 1;
      SessionStep(Now(), ok);
      session := if ok then Some(modem.with) else None;
      pc := JoinedCallback;
    }

    /** Write the record; a failed write may leave it as it was or damaged. */
    method WriteRecord(activation: Activation) returns (ok: bool, damaged: bool)
      modifies this`asked, this`record
      ensures
        var written := if ok then Intact(activation) else if damaged then Damaged else old(record);
        record == written && Now() == old(Now()).(record := written)
      ensures ok == answers(old(asked)) && damaged == answers(old(asked) + 1)
    {
      ok, damaged, asked := answers(asked), answers(asked + 1), asked + 2;
      record := if ok then Intact(activation) else if damaged then Damaged else record;
    }

    method FinishJoin()
      modifies this`joinedCfg, this`joining, this`joinFails, this`pc
      ensures
        var s := old(Now());
        Now() == s.(joinedCfg := s.attempt, joining := false, joinFails := 0, pc := Ready)
      ensures pc == Ready && joinedCfg == attempt && !joining && joinFails == 0
    {
      joinedCfg := attempt;
      joining := false;
      joinFails := 0;
      pc := Ready;
    }

    method StoreJoinedConfiguration() returns (ok: bool, damaged: bool)
      requires pc == JoinedCallback
      modifies this`asked, this`record, this`joinedCfg, this`joining, this`joinFails, this`pc
      ensures Next(old(Now()), Step(ok, damaged)) == Some(Now())
      ensures pc == Ready && joinedCfg == attempt && !joining && joinFails == 0
      ensures
        record ==
          if attempt.None? then old(record)
          else if answers(old(asked)) then Intact(attempt.value)
          else if answers(old(asked) + 1) then Damaged
          else old(record)
    {
      hide *;
      ghost var before := Now();
      NowIs();
      ok, damaged := false, false;
      if attempt.Some? {
        ok, damaged := WriteRecord(attempt.value);
      }
      FinishJoin();
      JoinedCallbackStep(before, ok, damaged);
    }

    lemma NowIs()
      ensures Now().attempt == attempt && Now().record == record && Now().joinFails == joinFails && Now().mode == mode
      ensures Now().modem == modem && Now().initialized == initialized
    {
    }

    /** on_modem_network_joined: put the joined configuration on record and queue the waiting messages again. */
    method OnNetworkJoined()
      requires At(Now()) && Queues() && pc == JoinedCallback
      modifies this`asked, this`record, this`joinedCfg, this`joining, this`joinFails, this`pc, this`run, eventQue
      modifies msgQue
      ensures old(Admissible(run)) ==> Admissible(run)
      ensures At(Now()) && Queues() && pc == Ready && joinedCfg == attempt && !joining && joinFails == 0
      ensures attempt.Some? && answers(old(asked)) ==> record == Intact(attempt.value)
      ensures msgQue.items == [] && eventQue.items == Newest(old(eventQue.items) + old(msgQue.items), 8)
    {
      hide Run, Exec, Next, Now, At, Newest, Admissible;
      ghost var before := Now();
      var ok, damaged := StoreJoinedConfiguration();
      Note(before, Step(ok, damaged));
      RescheduleMessages();
    }

    /** The modem engine completes a join and calls the callback. */
    method CompleteJoin()
      requires At(Now()) && Queues() && pc == Ready && mode == Engine && modem.Joining?
      modifies this`asked, this`turns, this`cfg, this`initialized, this`pending, this`changes, this`run, this`modem
      modifies this`session
      modifies this`record, this`joinedCfg, this`joining, this`joinFails, this`pc, eventQue, msgQue
      ensures old(Admissible(run)) ==> Admissible(run)
      ensures At(Now()) && Queues() && pc == Ready && (old(initialized) ==> initialized)
      ensures modem == Joined(old(modem.with)) && joinedCfg == attempt
      ensures session == if answers(old(asked)) then Some(old(modem.with)) else None
      ensures attempt.Some? && answers(old(asked) + 1) ==> record == Intact(attempt.value)
    {
      hide *;
      ghost var before := Now();
      ModemAccepts();
      Note(before, Accept);
      Yield();
      before := Now();
      var ok := ModemStoresSession();
      Note(before, Step(ok, false));
      Yield();
      OnNetworkJoined();
    }

    method CountJoinFailure() returns (left: bool, forgot: bool)
      requires pc == Ready && mode == Engine && modem.Joining?
      modifies this`asked, this`modem, this`session, this`joining, this`attempt, this`joinFails
      ensures Next(old(Now()), JoinFailed(left, forgot)) == Some(Now())
      ensures joinFails == if old(joinFails) + 1 < 3 then old(joinFails) + 1 else 0
      ensures old(joinFails) + 1 < 3 ==> modem == old(modem) && joining == old(joining) && attempt == old(attempt)
      ensures old(joinFails) + 1 >= 3 ==> !joining && attempt == None
      ensures old(joinFails) + 1 >= 3 ==> modem == if answers(old(asked)) then Idle else old(modem)
    {
      hide Next, Now, Left;
      ghost var before := Now();
      NowIs();
      left, forgot := false, false;
      if joinFails + 1 >= JOIN_ATTEMPTS {
        left, forgot := LeaveNetwork();
        DropAttempt();
        SetJoinFails(0);
      } else {
        SetJoinFails(joinFails + 1);
      }
      JoinFailedStep(before, left, forgot);
    }

    /** on_modem_join_fail: leave after JOIN_ATTEMPTS failures in a row. */
    method OnJoinFail()
      requires At(Now()) && pc == Ready && mode == Engine && modem.Joining?
      modifies this`asked, this`modem, this`session, this`joining, this`attempt, this`joinFails, this`run
      ensures old(Admissible(run)) ==> Admissible(run)
      ensures At(Now()) && joinFails == if old(joinFails) + 1 < 3 then old(joinFails) + 1 else 0
      ensures old(joinFails) + 1 < 3 ==> modem == old(modem) && joining == old(joining) && attempt == old(attempt)
      ensures old(joinFails) + 1 >= 3 ==> !joining && attempt == None
      ensures old(joinFails) + 1 >= 3 ==> modem == if answers(old(asked)) then Idle else old(modem)
    {
      hide *;
      ghost var before := Now();
      var left, forgot := CountJoinFailure();
      Note(before, JoinFailed(left, forgot));
    }

    // ---- commands ----

    method LeaveOnCommand() returns (left: bool, forgot: bool)
      requires pc == Ready && mode != Init
      modifies this`asked, this`modem, this`session, this`joining, this`attempt, this`joinFails
      ensures Next(old(Now()), LeaveCommand(left, forgot)) == Some(Now())
      ensures !joining && attempt == None && joinFails == 0
      ensures modem == if answers(old(asked)) then Idle else old(modem)
    {
      hide *;
      ghost var before := Now();
      NowIs();
      left, forgot := LeaveNetwork();
      DropAttempt();
      SetJoinFails(0);
      LeaveCommandStep(before, left, forgot);
    }

    method SetMode(next: Mode)
      modifies this`mode
      ensures Now() == old(Now()).(mode := next) && mode == next
    {
      mode := next;
    }

    method LeaveForReset() returns (left: bool, forgot: bool)
      requires pc == Ready && mode != Init && initialized
      modifies this`asked, this`modem, this`session, this`joining, this`attempt, this`mode
      ensures Next(old(Now()), ResetCommand(left, forgot)) == Some(Now())
      ensures !joining && attempt == None && mode == Init
      ensures modem == if answers(old(asked)) then Idle else old(modem)
    {
      hide *;
      ghost var before := Now();
      NowIs();
      left, forgot := LeaveNetwork();
      DropAttempt();
      SetMode(Init);
      LeaveCommandStep(before, left, forgot);
    }

    /** LORAWAN_CMD_START. */
    method HandleStart()
      requires At(Now()) && pc == Ready && mode != Init && initialized
      modifies this`mode, this`run
      ensures old(Admissible(run)) ==> Admissible(run)
      ensures At(Now()) && mode == Init
    {
      hide Run, Exec, Admissible, Stepped;
      ghost var before := Now();
      mode := Init;
      Note(before, StartCommand);
    }

    /** LORAWAN_CMD_MODEM_SUSPEND: only a running engine asks the modem. */
    method HandleSuspend()
      requires At(Now()) && pc == Ready && mode != Init
      modifies this`asked, this`mode, this`enabled, this`run
      ensures old(Admissible(run)) ==> Admissible(run)
      ensures At(Now())
      ensures
        if old(mode) != Engine then mode == old(mode) && !enabled
        else if answers(old(asked)) then mode == Suspended && !enabled
        else mode == Engine && enabled == old(enabled)
    {
      hide Run, Exec, Admissible, Stepped;
      ghost var before := Now();
      var ok := false;
      if mode != Engine {
        enabled := false;
      } else {
        ok := Ask();
        if ok {
          mode := Suspended;
          enabled := false;
        }
      }
      Note(before, SuspendCommand(ok));
    }

    /** LORAWAN_CMD_MODEM_RESUME. */
    method HandleResume()
      requires At(Now()) && pc == Ready && mode != Init
      modifies this`asked, this`mode, this`enabled, this`run
      ensures old(Admissible(run)) ==> Admissible(run)
      ensures At(Now())
      ensures
        if old(mode) == Engine || (old(mode) == Suspended && answers(old(asked))) then mode == Engine && enabled
        else mode == old(mode) && enabled == old(enabled)
    {
      hide Run, Exec, Admissible, Stepped;
      ghost var before := Now();
      var ok := false;
      if mode == Suspended {
        ok := Ask();
        if ok {
          mode := Engine;
          enabled := true;
        }
      } else if mode == Engine {
        enabled := true;
      }
      Note(before, ResumeCommand(ok));
    }

    /** Suspend the modem, scan and resume it. */
    method TakeRadio() returns (suspended: bool, resumed: bool)
      requires pc == Ready && mode != Init && enabled
      modifies this`asked, this`mode
      ensures Next(old(Now()), RadioAccess(suspended, resumed)) == Some(Now())
      ensures
        mode ==
          if answers(old(asked) + 1) then Engine
          else if answers(old(asked)) then Suspended
          else old(mode)
    {
      hide Run, Exec, Admissible, Stepped;
      suspended := Ask();
      if suspended {
        mode := Suspended;
      }
      resumed := Ask();
      if resumed {
        mode := Engine;
      }
    }

    /** The scans, which take the radio from the modem and give it back; whether each succeeds is up to the modem. */
    method HandleRadioAccess()
      requires At(Now()) && pc == Ready && mode != Init
      modifies this`asked, this`mode, this`run
      ensures old(Admissible(run)) ==> Admissible(run)
      ensures At(Now())
      ensures
        mode ==
          if !enabled then old(mode)
          else if answers(old(asked) + 1) then Engine
          else if answers(old(asked)) then Suspended
          else old(mode)
    {
      if enabled {
        hide *;
        ghost var before := Now();
        var suspended, resumed := TakeRadio();
        Note(before, RadioAccess(suspended, resumed));
      }
    }

    /** LORAWAN_CMD_LEAVE_NETWORK. */
    method HandleLeave()
      requires At(Now()) && pc == Ready && mode != Init
      modifies this`asked, this`modem, this`session, this`joining, this`attempt, this`joinFails, this`run
      ensures old(Admissible(run)) ==> Admissible(run)
      ensures At(Now()) && !joining && attempt == None && joinFails == 0
      ensures modem == if answers(old(asked)) then Idle else old(modem)
    {
      hide *;
      ghost var before := Now();
      var left, forgot := LeaveOnCommand();
      Note(before, LeaveCommand(left, forgot));
    }

    /** LORAWAN_CMD_RESET. */
    method HandleReset()
      requires At(Now()) && pc == Ready && mode != Init && initialized
      modifies this`asked, this`modem, this`session, this`joining, this`attempt, this`mode, this`run
      ensures old(Admissible(run)) ==> Admissible(run)
      ensures At(Now()) && !joining && attempt == None && mode == Init
      ensures modem == if answers(old(asked)) then Idle else old(modem)
    {
      hide *;
      ghost var before := Now();
      var left, forgot := LeaveForReset();
      Note(before, ResetCommand(left, forgot));
    }

    /** What the protocol keeps holds of these fields, and a settled session has the desired configuration. */
    lemma FieldsAreSafe()
      requires At(Now())
      ensures Admissible(run) ==> record.Intact? && session.Some? ==> record.activation == Act(session.value)
      ensures Admissible(run) ==> record.Intact? && modem.Joined? ==> record.activation == Act(modem.with)
      ensures Admissible(run) ==>
        pc == Ready && mode != Init && !pending && modem.Joined? ==> Act(modem.with) == Act(cfg)
    {
      hide Crc32, Run, Exec;
      if Admissible(run) {
        RunKeeps(run);
        if pc == Ready && mode != Init && !pending {
          SettledMatches(run);
        }
      }
    }
  }
}
