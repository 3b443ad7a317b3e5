/**
 The LoRaWAN session protocol (app/src/lorawan/lorawan.c) as a state machine.  Event handlers, modem
 callbacks, the settings writer and loss of power interleave between any two steps; a step is what
 runs without interruption, which the configuration mutex makes out of several statements.
 */
module LorawanSession {
  import opened CrcIeee

  const JOIN_ATTEMPTS: nat := 3

  datatype Option<T> = None | Some(value: T)

  /** The activation part of lorawan_cfg. */
  datatype Config = Config(region: bv8, joinEui: seq<bv8>, appKey: seq<bv8>)

  /** lorawan_activation_configuration: what identifies a session. */
  datatype Activation = Activation(region: bv8, joinEui: seq<bv8>, keyCrc: bv32)

  /** The joined-configuration record; Damaged when its size or checksum is wrong. */
  datatype Record = Absent | Damaged | Intact(activation: Activation)

  /** The modem, with the configuration its join was started with. */
  datatype Modem = Idle | Joining(with: Config) | Joined(with: Config)

  datatype Mode = Setup | Init | Engine | Suspended

  /** What the LoRaWAN thread does next; Ready between two events. */
  datatype Pc =
    | Ready
    | InitModem
    | Reset
    | Mismatch(wasValid: bool)
    | DropSession(wasValid: bool)
    | Leave
    | DeleteRecord
    | Configure
    | JoinNetwork(wasPending: bool, captured: nat)
    | CheckJoined(joinAttempt: bool)
    | SessionDue(with: Config)
    | JoinedCallback

  /**
   `session` is the session the modem has stored.  `configured` is what the modem was last configured
   with.  `changes` counts the changes latched since boot, and `served` those of them that were in
   force when the configuration of the last started join was taken.
   */
  datatype State = State(
    cfg: Config, initialized: bool, pending: bool, joinedCfg: Option<Activation>, attempt: Option<Activation>,
    joining: bool, joinFails: nat, mode: Mode, enabled: bool,
    modem: Modem, configured: Config, record: Record, session: Option<Config>,
    pc: Pc, changes: nat, served: nat)

  /** `ok`, `left` and the like are the answers of the modem and of the storage. */
  datatype Action =
    | SetConfiguration(to: Config)
    | PowerLoss(damaged: bool)
    | StartCommand
    | ResetCommand(left: bool, forgot: bool)
    | LeaveCommand(left: bool, forgot: bool)
    | SuspendCommand(ok: bool)
    | ResumeCommand(ok: bool)
    | RadioAccess(suspended: bool, resumed: bool)
    | Message(joinAttempt: bool)
    | Accept
    | JoinFailed(left: bool, forgot: bool)
    | StoreSession
    | Step(ok: bool, forgot: bool)

  function Act(c: Config): Activation {
    Activation(c.region, c.joinEui, Crc32(c.appKey))
  }

  /** Field by field, as the reset callback compares them. */
  predicate SameActivation(a: Activation, c: Config)
    ensures SameActivation(a, c) <==> a == Act(c)
  {
    a.region == c.region && a.keyCrc == Crc32(c.appKey) && a.joinEui == c.joinEui
  }

  /** A changed region or JoinEUI is always seen, and so is an AppKey changed within four consecutive bytes. */
  lemma ChangeIsSeen(c: Config, d: Config, front: seq<bv8>, x: seq<bv8>, y: seq<bv8>, rest: seq<bv8>)
    requires c.appKey == front + x + rest && d.appKey == front + y + rest && |x| == |y| <= 4 && c != d
    ensures Act(c) != Act(d)
  {
    hide Crc32;
    if c.region == d.region && c.joinEui == d.joinEui {
      assert x != y;
      BurstDetected(front, x, y, rest);
    }
  }

  /** In particular one changed byte. */
  lemma ChangedByteIsSeen(c: Config, i: nat, y: bv8)
    requires i < |c.appKey| && c.appKey[i] != y
    ensures Act(c.(appKey := c.appKey[i := y])) != Act(c)
  {
    var front, rest := c.appKey[..i], c.appKey[i + 1..];
    assert c.appKey == front + [c.appKey[i]] + rest;
    assert c.appKey[i := y] == front + [y] + rest;
    ChangeIsSeen(c, c.(appKey := c.appKey[i := y]), front, [c.appKey[i]], [y], rest);
  }

  /** A key changed in five bytes can look unchanged: these two sessions cannot be told apart. */
  lemma UnseenChange(region: bv8, joinEui: seq<bv8>, rest: seq<bv8>)
    ensures
      var c := Config(region, joinEui, [0x00, 0x00, 0x00, 0x00, 0x00] + rest);
      var d := Config(region, joinEui, [0x41, 0x06, 0x71, 0xDB, 0x01] + rest);
      c != d && Act(c) == Act(d)
  {
    hide Crc32;
    CollisionExists(rest);
    var k, l := [0x00, 0x00, 0x00, 0x00, 0x00] + rest, [0x41, 0x06, 0x71, 0xDB, 0x01] + rest;
    assert k[0] != l[0];
  }

  // ---- the steps ----

  function ZeroConfig(): Config {
    Config(0, seq(8, _ => 0), seq(16, _ => 0))
  }

  /** The state after power-up: everything in RAM is initial. */
  function Boot(record: Record, session: Option<Config>): State {
    State(ZeroConfig(), false, false, None, None, false, 0, Setup, false, Idle, ZeroConfig(), record, session, Ready,
          0, 0)
  }

  /** The answer of the modem to a request to leave. */
  function Left(s: State, left: bool, forgot: bool): State {
    if left then s.(modem := Idle, session := if forgot then None else s.session) else s
  }

  /** What the LoRaWAN thread is free to do next besides the step it has begun. */
  predicate Waiting(s: State) {
    s.pc == Ready && s.mode != Init
  }

  predicate Enabled(s: State, a: Action) {
    match a
    case SetConfiguration(_) => true
    case PowerLoss(_) => true
    case StartCommand => Waiting(s) && s.initialized
    case ResetCommand(_, _) => Waiting(s) && s.initialized
    case LeaveCommand(_, _) => Waiting(s)
    case SuspendCommand(_) => Waiting(s)
    case ResumeCommand(_) => Waiting(s)
    case RadioAccess(_, _) => Waiting(s) && s.enabled
    case Message(_) => Waiting(s)
    case Accept => Waiting(s) && s.mode == Engine && s.modem.Joining?
    case JoinFailed(_, _) => Waiting(s) && s.mode == Engine && s.modem.Joining?
    case StoreSession => Waiting(s) && s.modem.Joined?
    case Step(_, _) => !Waiting(s)
  }

  /** lorawan_set_configuration, under the mutex. */
  function Configured(s: State, c: Config): State {
    var changed := s.initialized && c != s.cfg;
    s.(cfg := c, initialized := true, pending := s.pending || changed,
       changes := if changed then s.changes + 1 else s.changes)
  }

  function After(s: State, a: Action): State
    requires Enabled(s, a)
  {
    match a
    case SetConfiguration(c) => Configured(s, c)
    case PowerLoss(damaged) => Boot(if damaged then Damaged else s.record, s.session)
    case StartCommand => s.(mode := Init)
    case ResetCommand(left, forgot) => Left(s, left, forgot).(joining := false, attempt := None, mode := Init)
    case LeaveCommand(left, forgot) => Left(s, left, forgot).(joining := false, attempt := None, joinFails := 0)
    case SuspendCommand(ok) =>
      if s.mode != Engine then s.(enabled := false) else if ok then s.(mode := Suspended, enabled := false) else s
    case ResumeCommand(ok) =>
      if s.mode == Engine then s.(enabled := true)
      else if s.mode == Suspended && ok then s.(mode := Engine, enabled := true) else s
    case RadioAccess(suspended, resumed) =>
      s.(mode := if resumed then Engine else if suspended then Suspended else s.mode)
    case Message(joinAttempt) =>
      if s.mode != Engine || !s.enabled then s
      else if s.pending then s.(pc := if s.modem.Joined? || s.joining then Leave else DeleteRecord)
      else s.(pc := CheckJoined(joinAttempt))
    case Accept => s.(modem := Joined(s.modem.with), pc := SessionDue(s.modem.with))
    case JoinFailed(left, forgot) =>
      if s.joinFails + 1 < JOIN_ATTEMPTS then s.(joinFails := s.joinFails + 1)
      else Left(s, left, forgot).(joining := false, attempt := None, joinFails := 0)
    case StoreSession => s.(session := Some(s.modem.with))
    case Step(ok, forgot) => Stepped(s, ok, forgot)
  }

  /** The next step of what the LoRaWAN thread has begun. */
  function Stepped(s: State, ok: bool, forgot: bool): State
    requires !Waiting(s)
  {
    match s.pc
    case Ready => // LORAWAN_INIT
      s.(joinFails := 0, joining := false, attempt := None, pc := InitModem,
        joinedCfg := if s.record.Intact? then Some(s.record.activation) else None)
    case InitModem => // smtc_app_init: the modem takes up its stored session, or not
      var modem :=
        if ok then (if s.session.Some? then Joined(s.session.value) else Idle)
        else if forgot then Idle
        else s.modem;
      s.(modem := modem, enabled := true, mode := Engine, pc := Reset)
    case Reset => // on_modem_reset; `ok` is the answer of smtc_modem_dm_set_info_interval
      if !ok then s.(pc := Ready)
      else if !s.modem.Joined? then s.(joinFails := 0, pc := DeleteRecord)
      else if s.joinedCfg == Some(Act(s.cfg)) then s.(joinFails := 0, pc := Ready)
      else s.(joinFails := 0, pc := Mismatch(s.joinedCfg.Some?))
    case Mismatch(wasValid) => s.(pending := true, pc := DropSession(wasValid))
    case DropSession(wasValid) =>
      Left(s, ok, forgot).(pc := if ok && !wasValid then DeleteRecord else Ready)
    case Leave =>
      if ok then Left(s, ok, forgot).(joining := false, attempt := None, pc := DeleteRecord) else s.(pc := Ready)
    case DeleteRecord => // prv_start_join
      if ok then s.(record := Absent, joinedCfg := None, pc := Configure) else s.(pc := Ready)
    case Configure =>
      if !ok then s.(pc := Ready)
      else
        s.(configured := s.cfg, attempt := Some(Act(s.cfg)), pending := false, pc := JoinNetwork(s.pending, s.changes))
    case JoinNetwork(wasPending, captured) =>
      if ok then s.(modem := Joining(s.configured), joining := true, served := captured, pc := Ready)
      else s.(attempt := None, pending := s.pending || wasPending, pc := Ready)
    case CheckJoined(joinAttempt) =>
      if s.modem.Joined? then s.(pc := Ready) // send_frame
      else s.(pc := if joinAttempt && !s.joining then DeleteRecord else Ready)
    case SessionDue(with) => // the old stored session is gone, or the new one is stored
      s.(session := if ok then Some(with) else None, pc := JoinedCallback)
    case JoinedCallback => // on_modem_network_joined; `ok` is the answer of the storage
      var record :=
        if s.attempt.Some? && ok then Intact(s.attempt.value)
        else if s.attempt.Some? && forgot then Damaged
        else s.record;
      s.(record := record, joinedCfg := s.attempt, joining := false, joinFails := 0, pc := Ready)
  }

  // ---- single steps, one by one ----

  function Next(s: State, a: Action): Option<State> {
    if Enabled(s, a) then Some(After(s, a)) else None
  }

  lemma ConfigurationStep(s: State, c: Config)
    ensures Next(s, SetConfiguration(c)) == Some(Configured(s, c))
  {
  }

  lemma DropRecordStep(s: State, ok: bool)
    requires s.pc == DeleteRecord
    ensures Next(s, Step(ok, false)) ==
      Some(if ok then s.(record := Absent, joinedCfg := None, pc := Configure) else s.(pc := Ready))
  {
  }

  lemma ConfigureStep(s: State, ok: bool)
    requires s.pc == Configure
    ensures
      var t := s.(configured := s.cfg, attempt := Some(Act(s.cfg)), pending := false,
                  pc := JoinNetwork(s.pending, s.changes));
      Next(s, Step(ok, false)) == Some(if ok then t else s.(pc := Ready))
  {
  }

  lemma JoinNetworkStep(s: State, ok: bool)
    requires s.pc.JoinNetwork?
    ensures
      var t := s.(modem := Joining(s.configured), joining := true, served := s.pc.captured);
      var u := s.(attempt := None, pending := s.pending || s.pc.wasPending);
      Next(s, Step(ok, false)) == Some((if ok then t else u).(pc := Ready))
  {
  }

  lemma MessageStep(s: State, joinAttempt: bool)
    requires s.pc == Ready && s.mode != Init
    ensures
      var pc :=
        if s.mode != Engine || !s.enabled then Ready
        else if s.pending then (if s.modem.Joined? || s.joining then Leave else DeleteRecord)
        else CheckJoined(joinAttempt);
      Next(s, Message(joinAttempt)) == Some(s.(pc := pc))
  {
  }

  lemma LeaveStep(s: State, ok: bool, forgot: bool)
    requires s.pc == Leave
    ensures
      var t := Left(s, ok, forgot);
      Next(s, Step(ok, forgot)) ==
        Some(if ok then t.(joining := false, attempt := None).(pc := DeleteRecord) else t.(pc := Ready))
  {
  }

  lemma CheckJoinedStep(s: State)
    requires s.pc.CheckJoined?
    ensures
      var pc := if !s.modem.Joined? && s.pc.joinAttempt && !s.joining then DeleteRecord else Ready;
      Next(s, Step(true, false)) == Some(s.(pc := pc))
  {
  }

  lemma InitStep(s: State)
    requires s.pc == Ready && s.mode == Init
    ensures
      var restored := if s.record.Intact? then Some(s.record.activation) else None;
      var t := s.(joinFails := 0, joining := false, attempt := None, pc := InitModem, joinedCfg := restored);
      Next(s, Step(true, false)) == Some(t)
  {
  }

  lemma InitModemStep(s: State, ok: bool, forgot: bool)
    requires s.pc == InitModem
    ensures
      var found := if s.session.Some? then Joined(s.session.value) else Idle;
      var t := s.(modem := if ok then found else if forgot then Idle else s.modem);
      Next(s, Step(ok, forgot)) == Some(t.(enabled := true, mode := Engine, pc := Reset))
  {
  }

  lemma ResetStep(s: State, ok: bool)
    requires s.pc == Reset
    ensures
      var pc :=
        if !s.modem.Joined? then DeleteRecord
        else if s.joinedCfg == Some(Act(s.cfg)) then Ready
        else Mismatch(s.joinedCfg.Some?);
      Next(s, Step(ok, false)) == Some(if ok then s.(joinFails := 0, pc := pc) else s.(pc := Ready))
  {
  }

  lemma MismatchStep(s: State)
    requires s.pc.Mismatch?
    ensures Next(s, Step(true, false)) == Some(s.(pending := true, pc := DropSession(s.pc.wasValid)))
  {
  }

  lemma DropSessionStep(s: State, ok: bool, forgot: bool)
    requires s.pc.DropSession?
    ensures
      var pc := if ok && !s.pc.wasValid then DeleteRecord else Ready;
      Next(s, Step(ok, forgot)) == Some(Left(s, ok, forgot).(pc := pc))
  {
  }

  lemma AcceptStep(s: State)
    requires s.pc == Ready && s.mode == Engine && s.modem.Joining?
    ensures Next(s, Accept) == Some(s.(modem := Joined(s.modem.with), pc := SessionDue(s.modem.with)))
  {
  }

  lemma SessionStep(s: State, ok: bool)
    requires s.pc.SessionDue?
    ensures Next(s, Step(ok, false)) == Some(s.(session := if ok then Some(s.pc.with) else None, pc := JoinedCallback))
  {
  }

  lemma JoinedCallbackStep(s: State, ok: bool, forgot: bool)
    requires s.pc == JoinedCallback
    ensures
      var kept := if forgot then Damaged else s.record;
      var t := if s.attempt.Some? then s.(record := if ok then Intact(s.attempt.value) else kept) else s;
      Next(s, Step(ok, forgot)) == Some(t.(joinedCfg := t.attempt, joining := false, joinFails := 0, pc := Ready))
  {
  }

  lemma JoinFailedStep(s: State, left: bool, forgot: bool)
    requires s.pc == Ready && s.mode == Engine && s.modem.Joining?
    ensures
      var n := s.joinFails + 1;
      var t := Left(s, left, forgot).(joining := false, attempt := None).(joinFails := 0);
      Next(s, JoinFailed(left, forgot)) == Some(if n < JOIN_ATTEMPTS then s.(joinFails := n) else t)
  {
  }

  lemma LeaveCommandStep(s: State, left: bool, forgot: bool)
    requires s.pc == Ready && s.mode != Init
    ensures
      var t := Left(s, left, forgot).(joining := false, attempt := None);
      && Next(s, LeaveCommand(left, forgot)) == Some(t.(joinFails := 0))
      && (s.initialized ==> Next(s, ResetCommand(left, forgot)) == Some(t.(mode := Init)))
  {
  }

  // ---- runs ----

  /** A run from a new device; the power may go and come back within it. */
  predicate Run(run: seq<Action>)
    decreases |run|, 0
  {
    run == [] || (Run(run[..|run| - 1]) && Enabled(Exec(run[..|run| - 1]), run[|run| - 1]))
  }

  function Exec(run: seq<Action>): State
    requires Run(run)
    decreases |run|, 1
  {
    if run == [] then Boot(Absent, None) else After(Exec(run[..|run| - 1]), run[|run| - 1])
  }

  /**
   The modem accepts the call with which its reset callback begins; or it refuses when the comparison
   the callback then skips would have changed nothing.
   */
  predicate InfoSet(s: State, a: Action) {
    a.Step? && s.pc == Reset && !a.ok && s.modem.Joined? ==> s.pending || Act(s.modem.with) == Act(s.cfg)
  }

  predicate Admissible(run: seq<Action>) {
    Run(run) && (run == [] || (Admissible(run[..|run| - 1]) && InfoSet(Exec(run[..|run| - 1]), run[|run| - 1])))
  }

  // ---- what every state keeps ----

  /** Between the start of LORAWAN_INIT and the end of the comparison in on_modem_reset. */
  predicate Starting(s: State) {
    s.pc == InitModem || s.pc == Reset || s.pc.Mismatch?
  }

  /** A latched change, or one that a join being started would give back. */
  predicate Owed(s: State) {
    s.pending || (s.pc.JoinNetwork? && s.pc.wasPending)
  }

  /** The record, when intact, belongs to the stored session and to the one in the modem. */
  predicate RecordMatches(s: State) {
    s.record.Intact? ==>
      && (s.session.Some? ==> Act(s.session.value) == s.record.activation)
      && (s.modem.Joined? ==> Act(s.modem.with) == s.record.activation)
      && !s.modem.Joining?
  }

  /** What is remembered about the join belongs to the modem's session. */
  predicate RamMatches(s: State) {
    && (s.modem.Joining? ==> s.joinedCfg.None?)
    && (s.joinedCfg.Some? && s.modem.Joined? ==> s.joinedCfg.value == Act(s.modem.with))
    && (s.attempt.Some? && !s.modem.Idle? && !s.pc.JoinNetwork? ==> s.attempt.value == Act(s.modem.with))
    && (s.pc.JoinNetwork? ==> s.attempt == Some(Act(s.configured)))
  }

  predicate PcMatches(s: State) {
    && (s.pc.DeleteRecord? || s.pc.Configure? || s.pc.JoinNetwork? ==> !s.modem.Joined?)
    && (s.pc.Configure? || s.pc.JoinNetwork? ==> !s.record.Intact? && s.joinedCfg.None?)
    && (s.pc.SessionDue? || s.pc.JoinedCallback? ==> s.modem.Joined? && !s.record.Intact?)
    && (s.pc.SessionDue? ==> s.modem == Joined(s.pc.with))
    && (s.pc.JoinedCallback? && s.session.Some? ==> s.session.value == s.modem.with)
    && (s.pc.DropSession? ==> s.pending) && (s.pc.Reset? ==> s.mode == Engine && s.enabled)
    && (s.pc.InitModem? ==>
          s.attempt.None? && s.joinedCfg == if s.record.Intact? then Some(s.record.activation) else None)
    && (s.enabled || !Waiting(s) || s.mode != Setup || !s.modem.Idle? ==> s.initialized)
  }

  /** Without a change owed, a join or a session has the desired configuration. */
  predicate SessionMatches(s: State) {
    && (!Owed(s) && (s.modem.Joining? || (s.modem.Joined? && !Starting(s) && s.mode != Init)) ==>
          Act(s.modem.with) == Act(s.cfg))
    && (s.pc.JoinNetwork? && !s.pending ==> s.configured == s.cfg)
  }

  /** A change that no started join has taken up is owed. */
  predicate ChangesOwed(s: State) {
    && s.served <= s.changes && (s.served < s.changes ==> Owed(s))
    && (s.pc.JoinNetwork? ==> s.served <= s.pc.captured <= s.changes)
    && (s.pc.JoinNetwork? && s.pc.captured < s.changes ==> s.pending)
  }

  predicate Inv(s: State) {
    RecordMatches(s) && RamMatches(s) && PcMatches(s) && SessionMatches(s) && ChangesOwed(s)
  }

  // ---- every step keeps it ----

  lemma ConfigurationKeeps(s: State, c: Config)
    requires Inv(s)
    ensures Inv(Configured(s, c))
  {
    hide Crc32;
  }

  lemma BootKeeps(s: State, damaged: bool)
    requires Inv(s)
    ensures Inv(After(s, PowerLoss(damaged)))
  {
    hide Crc32;
  }

  /** The requests that can end a session. */
  lemma LeavingKeeps(s: State, a: Action)
    requires Inv(s) && Enabled(s, a) && (a.ResetCommand? || a.LeaveCommand? || a.JoinFailed?)
    ensures Inv(After(s, a))
  {
    hide Crc32, Act, Configured, Stepped, Boot;
  }

  lemma EventKeeps(s: State, a: Action)
    requires Inv(s) && Enabled(s, a)
    requires a.Message? || a.Accept? || a.StoreSession? || a.StartCommand?
    ensures Inv(After(s, a))
  {
    hide Crc32, Configured, Stepped, Boot;
  }

  lemma RadioKeeps(s: State, a: Action)
    requires Inv(s) && Enabled(s, a) && (a.SuspendCommand? || a.ResumeCommand? || a.RadioAccess?)
    ensures Inv(After(s, a))
  {
    hide Crc32, Act, Configured, Stepped, Boot, Left;
    var t := After(s, a);
    assert t == s.(mode := t.mode, enabled := t.enabled) && t.mode != Init;
  }

  lemma InitStepKeeps(s: State, ok: bool, forgot: bool)
    requires Inv(s) && !Waiting(s) && (s.pc.Ready? || s.pc.InitModem?)
    ensures Inv(Stepped(s, ok, forgot))
  {
    hide Crc32;
  }

  lemma ResetStepKeeps(s: State, ok: bool, forgot: bool)
    requires Inv(s) && s.pc.Reset? && InfoSet(s, Step(ok, forgot))
    ensures Inv(Stepped(s, ok, forgot))
  {
    hide Crc32, Configured, Boot, Left;
    var t := Stepped(s, ok, forgot);
    assert t == s.(pc := t.pc, joinFails := t.joinFails);
  }

  lemma MismatchStepKeeps(s: State, ok: bool, forgot: bool)
    requires Inv(s) && (s.pc.Mismatch? || s.pc.DropSession?)
    ensures Inv(Stepped(s, ok, forgot))
  {
    hide Crc32;
  }

  lemma JoinStepKeeps(s: State, ok: bool, forgot: bool)
    requires Inv(s) && !Waiting(s)
    requires s.pc.Leave? || s.pc.DeleteRecord? || s.pc.Configure? || s.pc.JoinNetwork? || s.pc.CheckJoined?
    ensures Inv(Stepped(s, ok, forgot))
  {
    hide Crc32;
  }

  lemma JoinedStepKeeps(s: State, ok: bool, forgot: bool)
    requires Inv(s) && !Waiting(s) && (s.pc.SessionDue? || s.pc.JoinedCallback?)
    ensures Inv(Stepped(s, ok, forgot))
  {
    hide Crc32;
  }

  lemma StepKeeps(s: State, a: Action)
    requires Inv(s) && Enabled(s, a) && InfoSet(s, a)
    ensures Inv(After(s, a))
  {
    hide Inv, Stepped, Configured, Boot, Crc32;
    match a
    case SetConfiguration(c) => ConfigurationKeeps(s, c);
    case PowerLoss(damaged) => BootKeeps(s, damaged);
    case Step(ok, forgot) =>
      if s.pc.Ready? || s.pc.InitModem? {
        InitStepKeeps(s, ok, forgot);
      } else if s.pc.Reset? {
        ResetStepKeeps(s, ok, forgot);
      } else if s.pc.Mismatch? || s.pc.DropSession? {
        MismatchStepKeeps(s, ok, forgot);
      } else if s.pc.SessionDue? || s.pc.JoinedCallback? {
        JoinedStepKeeps(s, ok, forgot);
      } else {
        JoinStepKeeps(s, ok, forgot);
      }
    case ResetCommand(_, _) => LeavingKeeps(s, a);
    case LeaveCommand(_, _) => LeavingKeeps(s, a);
    case JoinFailed(_, _) => LeavingKeeps(s, a);
    case SuspendCommand(_) => RadioKeeps(s, a);
    case ResumeCommand(_) => RadioKeeps(s, a);
    case RadioAccess(_, _) => RadioKeeps(s, a);
    case _ => EventKeeps(s, a);
  }

  /** Every reachable state satisfies the invariant, across losses of power. */
  lemma {:induction false} RunKeeps(run: seq<Action>)
    requires Admissible(run)
    ensures Inv(Exec(run))
  {
    hide Inv, After, Enabled;
    if run == [] {
      BootIsInv();
    } else {
      RunKeeps(run[..|run| - 1]);
      StepKeeps(Exec(run[..|run| - 1]), run[|run| - 1]);
    }
  }

  lemma BootIsReady()
    ensures Boot(Absent, None).pc == Ready
  {
  }

  lemma BootIsInv()
    ensures Inv(Boot(Absent, None))
  {
  }

  // ---- what follows for every run ----

  /** Crash consistency: an intact record always belongs to the stored session. */
  lemma StoredRecordMatches(run: seq<Action>)
    requires Admissible(run)
    ensures
      var s := Exec(run);
      s.record.Intact? && s.session.Some? ==> s.record.activation == Act(s.session.value)
  {
    hide After, Enabled;
    RunKeeps(run);
  }

  /**
   on_modem_reset keeps a restored session exactly when its join is on record and was made with the
   region, JoinEUI and AppKey checksum that are configured now.
   */
  lemma ResumesIffMatching(run: seq<Action>, forgot: bool)
    requires Admissible(run) && Exec(run).pc == Reset && Exec(run).modem.Joined?
    ensures
      var s := Exec(run);
      var t := After(s, Step(true, forgot));
      && (t.pc == Ready <==> s.joinedCfg.Some? && Act(s.modem.with) == Act(s.cfg))
      && (t.pc != Ready ==> t.pc == Mismatch(s.joinedCfg.Some?))
  {
    hide Crc32, Exec;
    RunKeeps(run);
  }

  /** The step that calls send_frame. */
  predicate Sends(s: State, a: Action) {
    a.Step? && s.pc.CheckJoined? && s.modem.Joined?
  }

  /** The message's handling began at step `j`, found no change pending, and only settings came in between. */
  ghost predicate CheckedAt(run: seq<Action>, j: nat)
    requires Run(run)
  {
    && j < |run| && Run(run[..j]) && run[j].Message? && Enabled(Exec(run[..j]), run[j])
    && Exec(run[..j]).mode == Engine && Exec(run[..j]).enabled && !Exec(run[..j]).pending
    && Exec(run[..j]).modem == Exec(run).modem
    && (forall k :: j < k < |run| ==> run[k].SetConfiguration?)
  }

  lemma StepLeavesCheck(s: State, ok: bool, forgot: bool)
    requires !Waiting(s)
    ensures !Stepped(s, ok, forgot).pc.CheckJoined?
    ensures Stepped(s, ok, forgot).changes == s.changes
  {
    hide Act, Boot, Configured, Left;
    if s.pc.DropSession? || s.pc.Leave? {
      LeftKeepsChanges(s, ok, forgot);
    }
  }

  lemma LeftKeepsChanges(s: State, left: bool, forgot: bool)
    ensures Left(s, left, forgot).changes == s.changes
  {
  }

  lemma EntersCheck(s: State, a: Action)
    requires Enabled(s, a) && After(s, a).pc.CheckJoined?
    ensures After(s, a).modem == s.modem
    ensures a.SetConfiguration? ==> s.pc == After(s, a).pc
    ensures !a.SetConfiguration? ==> a.Message? && s.mode == Engine && s.enabled && !s.pending
  {
    hide Stepped;
    if a.Step? {
      StepLeavesCheck(s, a.ok, a.forgot);
    }
  }

  lemma {:induction false} CheckBegan(run: seq<Action>) returns (j: nat)
    requires Run(run) && Exec(run).pc.CheckJoined?
    ensures CheckedAt(run, j)
  {
    hide After, Enabled, Boot;
    BootIsReady();
    var init, last := run[..|run| - 1], run[|run| - 1];
    EntersCheck(Exec(init), last);
    if last.SetConfiguration? {
      j := CheckBegan(init);
      assert init[..j] == run[..j];
    } else {
      j := |init|;
    }
  }

  lemma {:induction false} AdmissiblePrefix(run: seq<Action>, j: nat)
    requires Admissible(run) && j <= |run|
    ensures Admissible(run[..j])
    decreases |run|
  {
    hide InfoSet, Exec;
    if j < |run| {
      var init := run[..|run| - 1];
      AdmissiblePrefix(init, j);
      assert init[..j] == run[..j];
    } else {
      assert run[..j] == run;
    }
  }

  /**
   send_frame is reached only when joined, after a check that found no activation change pending; and
   at that check the session's join configuration was the desired one, up to the AppKey checksum.
   */
  lemma SendsMatch(run: seq<Action>, a: Action) returns (j: nat)
    requires Admissible(run) && Sends(Exec(run), a)
    ensures CheckedAt(run, j)
    ensures
      var s := Exec(run[..j]);
      Exec(run).modem.Joined? && s.modem == Exec(run).modem && !s.pending && Act(s.modem.with) == Act(s.cfg)
  {
    hide After, Crc32;
    j := CheckBegan(run);
    AdmissiblePrefix(run, j);
    RunKeeps(run[..j]);
  }

  lemma ChangesGrowStep(s: State, a: Action)
    requires Enabled(s, a) && !a.PowerLoss?
    ensures s.changes <= After(s, a).changes
  {
    hide Stepped, Act, Boot;
    if a.Step? {
      StepLeavesCheck(s, a.ok, a.forgot);
    }
  }

  lemma {:induction false} ChangesGrow(run: seq<Action>, after: seq<Action>)
    requires Run(run + after)
    requires forall k :: 0 <= k < |after| ==> !after[k].PowerLoss?
    ensures Run(run) && Exec(run).changes <= Exec(run + after).changes
    decreases |after|
  {
    hide After, Enabled;
    if after == [] {
      assert run + after == run;
    } else {
      var init := after[..|after| - 1];
      assert (run + after)[..|run + after| - 1] == run + init;
      ChangesGrow(run, init);
      ChangesGrowStep(Exec(run + init), after[|after| - 1]);
    }
  }

  /**
   A latched change survives: until a join is started with a configuration taken after the change,
   or the power is lost, it stays pending, or is about to be given back by the join being started.
   */
  lemma LatchedChangeSurvives(before: seq<Action>, c: Config, after: seq<Action>)
    requires Admissible(before + [SetConfiguration(c)] + after)
    requires forall k :: 0 <= k < |after| ==> !after[k].PowerLoss?
    ensures Run(before)
    ensures
      var s, t := Exec(before), Exec(before + [SetConfiguration(c)] + after);
      && (s.initialized && c != s.cfg && t.served <= s.changes ==> Owed(t))
      && (s.initialized && c != s.cfg && t.served <= s.changes && t.pc.Ready? ==> t.pending)
  {
    hide Crc32, After, Enabled;
    var run := before + [SetConfiguration(c)];
    AdmissiblePrefix(run + after, |run|);
    assert (run + after)[..|run|] == run;
    assert run[..|run| - 1] == before;
    ChangesGrow(run, after);
    RunKeeps(run + after);
    ChangeIsCounted(before, c);
  }

  lemma ChangeIsCounted(before: seq<Action>, c: Config)
    requires Run(before + [SetConfiguration(c)]) && Run(before)
    ensures
      var s, t := Exec(before), Exec(before + [SetConfiguration(c)]);
      s.initialized && c != s.cfg ==> t.changes == s.changes + 1 && t.pending
  {
    assert (before + [SetConfiguration(c)])[..|before|] == before;
  }

  /**
   Between events and with nothing pending, a join or a session has the desired configuration and every
   change is served.
   */
  lemma SettledMatches(run: seq<Action>)
    requires Admissible(run) && Waiting(Exec(run)) && !Exec(run).pending
    ensures
      var s := Exec(run);
      s.served == s.changes && (!s.modem.Idle? ==> Act(s.modem.with) == Act(s.cfg))
  {
    hide Exec, Crc32;
    RunKeeps(run);
  }

  // ---- the assumption on the reset callback is needed ----

  /** Every step of `later`, taken after `run`, satisfies the assumption on the reset callback. */
  predicate Continues(run: seq<Action>, later: seq<Action>)
    decreases |later|
  {
    && Run(run + later)
    && (later == [] ||
        (var init := later[..|later| - 1];
         Continues(run, init) && InfoSet(Exec(run + init), later[|later| - 1])))
  }

  lemma {:induction false} ContinuedRunIsAdmissible(run: seq<Action>, later: seq<Action>)
    requires Admissible(run) && Continues(run, later)
    ensures Admissible(run + later)
    decreases |later|
  {
    hide InfoSet, Exec, Run;
    if later == [] {
      assert run + later == run;
    } else {
      var init := later[..|later| - 1];
      ContinuedRunIsAdmissible(run, init);
      assert (run + later)[..|run + later| - 1] == run + init;
    }
  }

  /** A frame is about to be sent, although at the check the session did not have the desired configuration. */
  ghost predicate SendsMismatched(run: seq<Action>) {
    && Run(run) && Sends(Exec(run), Step(true, false))
    && exists j: nat :: CheckedAt(run, j) && Act(Exec(run).modem.with) != Act(Exec(run[..j]).cfg)
  }

  /** There is only one check that a send can follow. */
  lemma CheckIsUnique(run: seq<Action>, i: nat, j: nat)
    requires Run(run) && CheckedAt(run, i) && CheckedAt(run, j)
    ensures i == j
  {
    hide Run, Exec, Enabled;
  }

  lemma AdmissibleRunsDoNotMismatch(run: seq<Action>)
    requires Admissible(run)
    ensures !SendsMismatched(run)
  {
    hide Crc32, After, Exec, Admissible;
    if SendsMismatched(run) {
      var j: nat :| CheckedAt(run, j) && Act(Exec(run).modem.with) != Act(Exec(run[..j]).cfg);
      var i := SendsMatch(run, Step(true, false));
      CheckIsUnique(run, i, j);
      assert false;
    }
  }

  /** Refused with nothing pending and a session of another configuration, the very next message is sent. */
  lemma RefusedResetThenMessage(run: seq<Action>, forgot: bool)
    requires Admissible(run) && Exec(run).pc == Reset && Exec(run).modem.Joined?
    requires !Exec(run).pending && Act(Exec(run).modem.with) != Act(Exec(run).cfg)
    ensures Continues(run + [Step(false, forgot)], [Message(true)])
    ensures SendsMismatched(run + [Step(false, forgot)] + [Message(true)])
  {
    RunKeeps(run);
    RefusedStep(Exec(run), forgot);
    hide Run, Exec, Admissible, Crc32, Inv, Enabled, After, Act;
    var refused := Extended(run, Step(false, forgot));
    var checked := Extended(refused, Message(true));
    MessageContinues(refused, Message(true));
    CheckedNow(refused, Message(true));
  }

  /** A refused reset callback changes neither session nor configuration, and leaves the thread ready. */
  lemma RefusedStep(s: State, forgot: bool)
    requires Inv(s) && s.pc == Reset && s.modem.Joined?
    ensures Enabled(s, Step(false, forgot))
    ensures var t := After(s, Step(false, forgot));
      && t.modem == s.modem && t.cfg == s.cfg && t.pending == s.pending
      && t.mode == Engine && t.enabled && Enabled(t, Message(true))
  {
    hide Crc32;
  }

  lemma MessageContinues(run: seq<Action>, a: Action)
    requires Run(run) && Run(run + [a]) && a.Message?
    ensures Continues(run, [a])
  {
    hide Exec;
    assert [a][..0] == [] && run + [] == run;
  }

  lemma CheckedNow(run: seq<Action>, a: Action)
    requires Run(run) && Enabled(Exec(run), a) && a.Message? && Run(run + [a])
    requires Exec(run).mode == Engine && Exec(run).enabled && !Exec(run).pending && Exec(run).modem.Joined?
    requires Exec(run + [a]) == After(Exec(run), a) && Act(Exec(run).modem.with) != Act(Exec(run).cfg)
    ensures SendsMismatched(run + [a])
  {
    hide Run, Exec, Crc32, Stepped, Configured;
    assert (run + [a])[..|run|] == run;
    assert CheckedAt(run + [a], |run|);
  }

  /**
   When the modem refuses the first call of the reset callback for a restored session, some
   continuation sends a frame in a session of another configuration if and only if, at the refusal,
   nothing is pending and the session was joined with another configuration.
   */
  lemma RefusedResetHarmsIff(run: seq<Action>, forgot: bool)
    requires Admissible(run) && Exec(run).pc == Reset && Exec(run).modem.Joined?
    ensures
      var s, refused := Exec(run), run + [Step(false, forgot)];
      (exists later :: Continues(refused, later) && SendsMismatched(refused + later)) <==>
        (!s.pending && Act(s.modem.with) != Act(s.cfg))
  {
    hide Crc32, SendsMismatched, Continues, Stepped;
    var s, refused := Exec(run), run + [Step(false, forgot)];
    if !s.pending && Act(s.modem.with) != Act(s.cfg) {
      RefusedResetThenMessage(run, forgot);
    } else {
      RefusedResetIsAdmissible(run, forgot);
      forall later | Continues(refused, later)
        ensures !SendsMismatched(refused + later)
      {
        ContinuedRunIsAdmissible(refused, later);
        AdmissibleRunsDoNotMismatch(refused + later);
      }
    }
  }

  lemma RefusedResetIsAdmissible(run: seq<Action>, forgot: bool)
    requires Admissible(run) && Exec(run).pc == Reset
    requires Exec(run).modem.Joined? ==> Exec(run).pending || Act(Exec(run).modem.with) == Act(Exec(run).cfg)
    ensures Admissible(run + [Step(false, forgot)])
  {
    hide *;
    AdmissibleIsRun(run);
    RefusalIsEnabled(Exec(run), forgot);
    var _ := Extended(run, Step(false, forgot));
  }

  lemma AdmissibleIsRun(run: seq<Action>)
    requires Admissible(run)
    ensures Run(run)
  {
    hide InfoSet, Exec;
  }

  lemma RefusalIsEnabled(s: State, forgot: bool)
    requires s.pc == Reset
    ensures Enabled(s, Step(false, forgot))
    ensures (s.modem.Joined? ==> s.pending || Act(s.modem.with) == Act(s.cfg)) ==> InfoSet(s, Step(false, forgot))
  {
    hide Crc32;
  }

  /** What the device itself can see of the mismatch: with a join on record, its own comparison. */
  lemma MismatchIsObservable(run: seq<Action>)
    requires Admissible(run) && Exec(run).pc == Reset && Exec(run).modem.Joined? && Exec(run).joinedCfg.Some?
    ensures
      var s := Exec(run);
      Act(s.modem.with) == Act(s.cfg) <==> s.joinedCfg == Some(Act(s.cfg))
  {
    hide Exec, Crc32, Admissible;
    RunKeeps(run);
  }

  lemma Extended(run: seq<Action>, a: Action) returns (longer: seq<Action>)
    requires Run(run) && Enabled(Exec(run), a)
    ensures Run(longer) && Exec(longer) == After(Exec(run), a) && longer == run + [a]
    ensures Admissible(run) && InfoSet(Exec(run), a) ==> Admissible(longer)
  {
    hide InfoSet, After;
    longer := run + [a];
    assert longer[..|longer| - 1] == run;
  }

  /** From power-up to a join under way. */
  lemma FirstJoinStarted(c: Config) returns (run: seq<Action>)
    ensures Run(run) && Admissible(run)
    ensures
      var s := Exec(run);
      Waiting(s) && s.mode == Engine && s.modem == Joining(c) && s.attempt == Some(Act(c))
  {
    run := [];
    assert Exec(run) == Boot(Absent, None);
    hide Run, Exec, Admissible, Crc32;
    run := Extended(run, SetConfiguration(c));
    run := Extended(run, StartCommand);
    run := Extended(run, Step(true, false));
    run := Extended(run, Step(false, true));
    run := Extended(run, Step(true, false));
    run := Extended(run, Step(true, false));
    run := Extended(run, Step(true, false));
    run := Extended(run, Step(true, false));
  }

  /** From power-up to a join on record. */
  lemma FirstJoin(c: Config) returns (run: seq<Action>)
    ensures Run(run) && Admissible(run) && Exec(run).record == Intact(Act(c)) && Exec(run).session == Some(c)
  {
    run := FirstJoinStarted(c);
    hide Run, Exec, Admissible, Crc32;
    run := Extended(run, Accept);
    run := Extended(run, Step(true, false));
    run := Extended(run, Step(true, false));
  }

  /** A run in which a session is resumed after a loss of power, and then used for sending. */
  lemma ResumeHappens(c: Config) returns (reset: seq<Action>, check: seq<Action>)
    ensures Run(reset) && Admissible(reset) && Exec(reset).pc == Reset && Exec(reset).modem == Joined(c)
    ensures Exec(reset).cfg == c
    ensures Exec(reset).joinedCfg == Some(Act(c))
    ensures Run(check) && Admissible(check) && Sends(Exec(check), Step(true, false))
  {
    reset := FirstJoin(c);
    hide Run, Exec, Admissible, Crc32;
    reset := Extended(reset, PowerLoss(false));
    reset := Extended(reset, SetConfiguration(c));
    reset := Extended(reset, StartCommand);
    reset := Extended(reset, Step(true, false));
    reset := Extended(reset, Step(true, false));
    check := Extended(reset, Step(true, false));
    check := Extended(check, Message(true));
  }

  /**
   If the first call of the reset callback fails, the callback returns before the comparison: a
   session joined with `c` is then used for sending although `d` is configured and nothing is pending.
   */
  lemma FailedResetSendsMismatched(c: Config, d: Config) returns (run: seq<Action>)
    ensures Run(run) && Sends(Exec(run), Step(true, false))
    ensures Exec(run).modem == Joined(c) && Exec(run).cfg == d && !Exec(run).pending
  {
    run := FirstJoin(c);
    hide Run, Exec, Crc32;
    run := Extended(run, PowerLoss(false));
    run := Extended(run, SetConfiguration(d));
    run := Extended(run, StartCommand);
    run := Extended(run, Step(true, false));
    run := Extended(run, Step(true, false));
    run := Extended(run, Step(false, false));
    run := Extended(run, Message(true));
  }

  lemma Extend(run: seq<Action>, a: Action) returns (longer: seq<Action>)
    requires Run(run) && Next(Exec(run), a).Some?
    ensures longer == run + [a] && Run(longer) && Next(Exec(run), a) == Some(Exec(longer))
    ensures Admissible(run) && !Refuses(Exec(run), a) ==> Admissible(longer)
  {
    hide After;
    longer := Extended(run, a);
  }

  /** The modem refuses the first call of the reset callback. */
  predicate Refuses(s: State, a: Action) {
    a.Step? && s.pc == Reset && !a.ok
  }
}
