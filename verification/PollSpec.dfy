/** The polling bridge as a transition system. Its environment is explicit: an event says which read
    was answered, how many reads a send burst managed before its time budget ran out, and which of
    them the client's full queue dropped. */
module PollSpec {
  import opened Common
  import opened Dedup

  const LIST_CAPACITY: nat := 659

  /** A board address that means "the host board". */
  const DEFAULT_ADDRESS: Byte := 0xFF

  datatype Target = Target(erd: Erd, board: Byte)

  datatype Mode = Probing | Polling | Failed

  datatype Config = Config(probeList: seq<Target>, host: Byte)

  /** `outstanding` is what the read client still owes an answer for. `served`, `failedNow`, `started`,
      `finished` and `history` record the run: the reads answered or dropped in this cycle, whether one
      of them failed, cycles begun and finished in this stay in Polling, and, for every cycle finished
      since start-up or recovery, whether it contained a failed read. */
  datatype Bridge = Bridge(
    mode: Mode,
    list: seq<Target>,
    known: set<Erd>,
    index: nat,
    completed: nat,
    armed: bool,
    restart: bool,
    sending: bool,
    cycleFailed: bool,
    failures: Byte,
    outstanding: multiset<Target>,
    served: multiset<Target>,
    failedNow: bool,
    started: nat,
    finished: nat,
    history: seq<bool>)

  /** Choices of one send burst: per attempted read, whether it was queued; and whether the burst
      reached the end of the list within its budget. */
  datatype Burst = Burst(queued: seq<bool>, finished: bool)

  datatype Event =
    | Answer(read: Target, from: Byte, ok: bool, burst: Burst)
    | PollTimer(burst: Burst)
    | ApplianceLost(queued: bool)

  // ---------------------------------------------------------------- building blocks

  /** The read issued for a list entry. */
  function Request(cfg: Config, t: Target): (r: Target)
    ensures r.erd == t.erd
  {
    if t.board == DEFAULT_ADDRESS then Target(t.erd, cfg.host) else t
  }

  function Requests(cfg: Config, list: seq<Target>): (m: multiset<Target>)
    ensures |m| == |list|
  {
    if list == [] then multiset{}
    else Requests(cfg, list[..|list| - 1]) + multiset{Request(cfg, list[|list| - 1])}
  }

  /** The fixed-capacity ERD set. */
  function Remember(known: set<Erd>, erd: Erd): set<Erd> {
    if |known| >= LIST_CAPACITY then known else known + {erd}
  }

  /** An ERD that joins the list is remembered. */
  function KnownWith(list: seq<Target>, known: set<Erd>, t: Target): set<Erd> {
    if t in list || |list| >= LIST_CAPACITY then known else Remember(known, t.erd)
  }

  function AddToList(s: Bridge, t: Target): Bridge {
    s.(list := AddUnique(s.list, t, LIST_CAPACITY), known := KnownWith(s.list, s.known, t))
  }

  /** The uint8_t count of failed cycles in a row. */
  function Counted(failures: Byte, failed: bool): Byte {
    if failed then (failures + 1) % 0x100 else 0
  }

  /** Bookkeeping common to every finished cycle. */
  function Finish(s: Bridge): Bridge {
    s.(failures := Counted(s.failures, s.cycleFailed),
       cycleFailed := false, finished := s.finished + 1, history := s.history + [s.failedNow])
  }

  function StartCycle(s: Bridge): Bridge {
    s.(index := 0, completed := 0, served := multiset{}, failedNow := false, started := s.started + 1)
  }

  /** One read of the cycle. A dropped read counts as completed, and may complete the cycle. */
  function SendOne(cfg: Config, s: Bridge, queued: bool): Bridge
    requires s.index < |s.list|
  {
    var r := Request(cfg, s.list[s.index]);
    var t := s.(index := s.index + 1);
    if queued then t.(outstanding := s.outstanding + multiset{r})
    else
      var u := t.(served := s.served + multiset{r}, completed := s.completed + 1);
      if u.completed >= |u.list| then Finish(u).(armed := true) else u
  }

  function SendAll(cfg: Config, s: Bridge, queued: seq<bool>): (t: Bridge)
    requires s.index + |queued| <= |s.list|
    ensures t.list == s.list && t.index == s.index + |queued|
    decreases |queued|
  {
    if queued == [] then s else SendAll(cfg, SendOne(cfg, s, queued[0]), queued[1..])
  }

  /** A burst sends batches of ten until the list or the budget is exhausted. */
  predicate LegalBurst(s: Bridge, b: Burst) {
    && s.index + |b.queued| <= |s.list|
    && (b.finished ==> s.index + |b.queued| == |s.list|)
    && (!b.finished ==> |b.queued| > 0 && (|b.queued| % 10 == 0 || s.index + |b.queued| == |s.list|))
  }

  /** A burst and the timer armed after it. */
  function SendBurst(cfg: Config, s: Bridge, b: Burst): Bridge
    requires LegalBurst(s, b)
  {
    SendAll(cfg, s, b.queued).(sending := !b.finished, armed := true)
  }

  function EnterPolling(s: Bridge): Bridge {
    s.(mode := Polling, index := 0, completed := 0, restart := false, armed := true,
       served := multiset{}, failedNow := false, started := 0, finished := 0)
  }

  /** Read the next probe entry, or go polling when none is left. */
  function ProbeNext(cfg: Config, s: Bridge, queued: bool): Bridge {
    if s.index < |cfg.probeList| then
      s.(index := s.index + 1,
         outstanding := if queued then s.outstanding + multiset{Request(cfg, cfg.probeList[s.index])} else s.outstanding)
    else EnterPolling(s)
  }

  function EnterProbing(cfg: Config, s: Bridge, queued: bool): Bridge {
    ProbeNext(cfg,
              s.(mode := Probing, index := 0,
                 list := [], known := if |s.list| > 0 then {} else s.known),
              queued)
  }

  function Initial(cfg: Config, queued: bool): Bridge {
    EnterProbing(cfg, Bridge(Probing, [], {}, 0, 0, false, false, false, false, 0,
                             multiset{}, multiset{}, false, 0, 0, []), queued)
  }

  // ---------------------------------------------------------------- events

  /** The answered read counts towards the cycle. */
  function Serve(s: Bridge, read: Target, from: Byte, ok: bool): Bridge {
    var t := s.(outstanding := s.outstanding - multiset{read}, served := s.served + multiset{read},
                completed := s.completed + 1);
    if !ok then t.(cycleFailed := true, failedNow := true)
    else if read.erd in t.known then t
    else AddToList(t, Target(read.erd, from))
  }

  predicate Immediate(s: Bridge) {
    s.restart || !s.armed
  }

  function NextCycle(s: Bridge): Bridge {
    StartCycle(Finish(s).(restart := false))
  }

  function PollingTimer(cfg: Config, s: Bridge, b: Burst): Bridge
    requires (s.index >= |s.list| && s.completed < |s.list|) || LegalBurst(TimerStart(s), b)
  {
    if s.index >= |s.list| && s.completed < |s.list| then s.(armed := false, restart := true)
    else SendBurst(cfg, TimerStart(s), b)
  }

  /** Resume the interrupted burst, or begin the next cycle. */
  function TimerStart(s: Bridge): Bridge {
    var t := s.(armed := false);
    if !s.sending then StartCycle(t)
    else if s.index == 0 then t.(started := s.started + 1) else t
  }

  function PollingAnswer(cfg: Config, s: Bridge, read: Target, from: Byte, ok: bool, b: Burst): Bridge
    requires var t := Serve(s, read, from, ok);
             t.completed >= |t.list| && Immediate(t) ==> LegalBurst(NextCycle(t), b)
  {
    var t := Serve(s, read, from, ok);
    if t.completed < |t.list| then t
    else
      var u := if Immediate(t) then SendBurst(cfg, NextCycle(t), b) else Finish(t);
      if !ok && u.failures >= 3 then u.(mode := Failed) else u
  }

  /** A supported ERD joins the list; an unsupported one is only remembered. */
  function Recorded(s: Bridge, read: Target, from: Byte, ok: bool): Bridge {
    var t := s.(outstanding := s.outstanding - multiset{read});
    if ok then AddToList(t, Target(read.erd, from)) else t.(known := Remember(t.known, read.erd))
  }

  function ProbingAnswer(cfg: Config, s: Bridge, read: Target, from: Byte, ok: bool, queued: bool): Bridge {
    ProbeNext(cfg, Recorded(s, read, from, ok), queued)
  }

  /** What the environment may do: answer a read it holds, fire the timer if it is armed, and report the
      appliance lost only when it owes nothing. */
  predicate Enabled(cfg: Config, s: Bridge, e: Event) {
    match e
    case Answer(read, from, ok, b) =>
      && read in s.outstanding
      && (s.mode == Probing ==> b.queued != [])
      && (s.mode == Polling ==>
            var t := Serve(s, read, from, ok);
            t.completed >= |t.list| && Immediate(t) ==> LegalBurst(NextCycle(t), b))
    case PollTimer(b) =>
      && s.armed
      && (s.mode == Polling && !(s.index >= |s.list| && s.completed < |s.list|) ==> LegalBurst(TimerStart(s), b))
    case ApplianceLost(_) => s.outstanding == multiset{}
  }

  function Step(cfg: Config, s: Bridge, e: Event): Bridge
    requires Enabled(cfg, s, e)
  {
    match e
    case Answer(read, from, ok, b) =>
      if s.mode == Polling then PollingAnswer(cfg, s, read, from, ok, b)
      else if s.mode == Probing then ProbingAnswer(cfg, s, read, from, ok, b.queued[0])
      else s.(outstanding := s.outstanding - multiset{read})
    case PollTimer(b) =>
      if s.mode == Polling then PollingTimer(cfg, s, b) else s
    case ApplianceLost(queued) =>
      EnterProbing(cfg, if s.mode == Failed then s.(failures := 0, history := []) else s, queued)
  }
}
