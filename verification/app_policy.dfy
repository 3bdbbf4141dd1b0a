/** Which weights an application gets, over every interleaving of focus, audio and game events. */
module AppPolicy {
  import opened Options

  /** The bit set `boosted`; `Bits` relates it to the enumeration in the source. */
  datatype Boosts = Boosts(audio: bool, game: bool)

  const BOOST_NONE := Boosts(false, false)

  const BIT_AUDIO: bv32 := 1
  const BIT_GAME: bv32 := 2

  const FOCUSED: int := -1
  const MAX_WEIGHT: int := 10000

  datatype Config = Config(defaultCpu: int, defaultIo: int, activeCpu: int, activeIo: int, incCpu: int, incIo: int)

  datatype Weights = Weights(cpu: int, io: int)

  // ----------------------------------------------------------- configuration

  /** The AppBoost keys as the file has them; None if missing or not an integer. */
  datatype Keys = Keys(defaultCpu: Option<int>, defaultIo: Option<int>, activeCpu: Option<int>, activeIo: Option<int>,
                       incCpu: Option<int>, incIo: Option<int>)

  function Clamp(x: int, low: int, high: int): int { if x > high then high else if x < low then low else x }

  function KeyOr(key: Option<int>, default_: int): int { if key.Some? then key.value else default_ }

  function ReadConfig(keys: Keys): Config {
    var activeCpu := Clamp(KeyOr(keys.activeCpu, 100), 1, MAX_WEIGHT);
    var activeIo := Clamp(KeyOr(keys.activeIo, 100), 1, MAX_WEIGHT);
    Config(Clamp(KeyOr(keys.defaultCpu, 100), 1, MAX_WEIGHT), Clamp(KeyOr(keys.defaultIo, 100), 1, MAX_WEIGHT),
           activeCpu, activeIo,
           Clamp(KeyOr(keys.incCpu, 0), 0, MAX_WEIGHT - activeCpu),
           Clamp(KeyOr(keys.incIo, 0), 0, MAX_WEIGHT - activeIo))
  }

  /** A number is what its key says, cut to a range, or a fixed one if the key is missing. */
  predicate FromKey(x: int, key: Option<int>, missing: int, low: int, high: int) {
    match key
    case None => x == missing
    case Some(v) => (low <= v <= high ==> x == v) && (v < low ==> x == low) && (v > high ==> x == high)
  }

  /** Every weight comes from its own key, and the boosts are cut against the active weight of their own kind. */
  lemma ConfigByKeys(keys: Keys)
    ensures
      var cfg := ReadConfig(keys);
      && FromKey(cfg.defaultCpu, keys.defaultCpu, 100, 1, 10000)
      && FromKey(cfg.defaultIo, keys.defaultIo, 100, 1, 10000)
      && FromKey(cfg.activeCpu, keys.activeCpu, 100, 1, 10000)
      && FromKey(cfg.activeIo, keys.activeIo, 100, 1, 10000)
      && FromKey(cfg.incCpu, keys.incCpu, 0, 0, 10000 - cfg.activeCpu)
      && FromKey(cfg.incIo, keys.incIo, 0, 0, 10000 - cfg.activeIo)
  {
  }

  function Policy(cfg: Config, focused: bool, boosted: bool): Weights {
    Weights((if focused then cfg.activeCpu else cfg.defaultCpu) + (if boosted then cfg.incCpu else 0),
            (if focused then cfg.activeIo else cfg.defaultIo) + (if boosted then cfg.incIo else 0))
  }

  predicate InRange(w: Weights) {
    1 <= w.cpu <= 10000 && 1 <= w.io <= 10000
  }

  /** Whatever the file says, every weight the policy can send is one systemd accepts, if and only if the boost on top
      of the default weight stays within the maximum too. The clamps only see to it for the active weight. */
  lemma WeightsInRange(keys: Keys)
    ensures
      var cfg := ReadConfig(keys);
      (forall focused, boosted :: InRange(Policy(cfg, focused, boosted)))
      <==> cfg.defaultCpu + cfg.incCpu <= 10000 && cfg.defaultIo + cfg.incIo <= 10000
  {
    var cfg := ReadConfig(keys);
    if forall focused, boosted :: InRange(Policy(cfg, focused, boosted)) {
      assert InRange(Policy(cfg, false, true));
    }
  }

  /** A file that turns the two around gets an application boosted out of range. */
  lemma BoostedDefaultOutOfRange()
    ensures !InRange(Policy(ReadConfig(Keys(Some(9000), None, Some(100), None, Some(5000), None)), false, true))
  {
  }

  // ----------------------------------------------------------------- records

  datatype Rec = Rec(name: string, cpu: int, io: int, timestamp: int, boosted: Boosts)

  /** What the files of a cgroup say: weights, 0 where unreadable, and the xattr "inactive since". */
  datatype Files = Files(cpu: int, io: int, since: Option<int>)

  function Fresh(name: string, now: nat): Rec { Rec(name, 100, 100, now, BOOST_NONE) }

  function Refreshed(r: Rec, f: Files): Rec {
    r.(cpu := if f.cpu == 0 then 100 else f.cpu, io := if f.io == 0 then 100 else f.io,
       timestamp := if f.since.Some? then f.since.value else r.timestamp)
  }

  function PolicyOf(cfg: Config, r: Rec): Weights {
    Policy(cfg, r.timestamp == FOCUSED, r.boosted != BOOST_NONE)
  }

  function Weighted(cfg: Config, r: Rec): Rec {
    r.(cpu := PolicyOf(cfg, r).cpu, io := PolicyOf(cfg, r).io)
  }

  /** The records by path, and what systemd was last told for each unit while it existed. */
  datatype State = State(apps: map<string, Rec>, ready: bool, sent: map<string, Weights>)

  datatype Node = Running | NodeIdle | Suspended | Creating | Error

  /** Where an event comes from: the path, its unit name, the time and the files there. */
  datatype Source = Source(path: string, name: string, now: nat, files: Files)

  datatype Event =
    | Created(src: Source)
    | Attrib(src: Source)
    | Audio(src: Source, node: Node)
    | Game(src: Source, registered: bool)
    | Deleted(path: string)
    | ProxyReady

  predicate HasSource(e: Event) { e.Created? || e.Attrib? || e.Audio? || e.Game? }

  function Record(s: State, src: Source): Rec {
    Refreshed(if src.path in s.apps then s.apps[src.path] else Fresh(src.name, src.now), src.files)
  }

  function Flagged(r: Rec, e: Event): Rec {
    match e
    case Audio(_, node) =>
      if node.Running? then r.(boosted := r.boosted.(audio := true))
      else if node.NodeIdle? || node.Suspended? then r.(boosted := r.boosted.(audio := false))
      else r
    case Game(_, registered) => r.(boosted := r.boosted.(game := registered))
    case _ => r
  }

  /** A new directory, and a node in any other state, update the record but tell nobody. */
  predicate Notifies(e: Event) {
    e.Attrib? || (e.Audio? && (e.node.Running? || e.node.NodeIdle? || e.node.Suspended?)) || e.Game?
  }

  function Stored(s: State, path: string, r: Rec): State { s.(apps := s.apps[path := r]) }

  /** The "changed" handler: the record gets the policy's weights, and they are sent once the proxy is there. */
  function Notified(cfg: Config, s: State, path: string): State
    requires path in s.apps
  {
    var r := Weighted(cfg, s.apps[path]);
    var t := Stored(s, path, r);
    if s.ready then t.(sent := t.sent[r.name := Weights(r.cpu, r.io)]) else t
  }

  function After(cfg: Config, s: State, e: Event): State {
    match e
    case Deleted(path) =>
      if path in s.apps then s.(apps := s.apps - {path}, sent := s.sent - {s.apps[path].name}) else s
    case ProxyReady => s.(ready := true)
    case _ =>
      var t := Stored(s, e.src.path, Flagged(Record(s, e.src), e));
      if Notifies(e) then Notified(cfg, t, e.src.path) else t
  }

  // ------------------------------------------------------------ what was sent

  /** Different paths have different unit names. */
  ghost predicate DistinctNames(s: State) {
    forall p, q :: p in s.apps && q in s.apps && p != q ==> s.apps[p].name != s.apps[q].name
  }

  ghost predicate Consistent(s: State) {
    && DistinctNames(s)
    && (forall n :: n in s.sent ==> exists p :: p in s.apps && s.apps[p].name == n)
    && (!s.ready ==> s.sent == map[])
  }

  /** The unit name an event brings is its path's alone. */
  ghost predicate OwnName(s: State, e: Event) {
    HasSource(e) ==> forall p :: p in s.apps ==>
      (p == e.src.path ==> s.apps[p].name == e.src.name) && (p != e.src.path ==> s.apps[p].name != e.src.name)
  }

  /** The last weights sent for every application are the policy of its present focus and flags. */
  ghost predicate InSync(cfg: Config, s: State) {
    forall p :: p in s.apps && s.apps[p].name in s.sent ==> s.sent[s.apps[p].name] == PolicyOf(cfg, s.apps[p])
  }

  /** The one way out of sync: an event that tells nobody finds that the application, already told weights, gained or
      lost the focus, and the focus matters. */
  predicate LosesTrack(cfg: Config, s: State, e: Event) {
    && (e.Created? || (e.Audio? && (e.node.Creating? || e.node.Error?)))
    && e.src.path in s.apps && s.apps[e.src.path].name in s.sent
    && e.src.files.since.Some?
    && (e.src.files.since.value == FOCUSED) != (s.apps[e.src.path].timestamp == FOCUSED)
    && (cfg.activeCpu != cfg.defaultCpu || cfg.activeIo != cfg.defaultIo)
  }

  lemma DeletedConsistent(cfg: Config, s: State, path: string)
    requires Consistent(s)
    ensures Consistent(After(cfg, s, Deleted(path)))
  {
    var t := After(cfg, s, Deleted(path));
    forall n | n in t.sent ensures exists p :: p in t.apps && t.apps[p].name == n {
      var p :| p in s.apps && s.apps[p].name == n;
      assert p in t.apps;
    }
  }

  /** Only the event's own record changes, and only what was sent for its name. */
  lemma OnlyOwnRecord(cfg: Config, s: State, e: Event)
    requires HasSource(e) && OwnName(s, e)
    ensures
      var t, p := After(cfg, s, e), e.src.path;
      && t.apps.Keys == s.apps.Keys + {p} && t.apps[p].name == e.src.name && t.ready == s.ready
      && (forall q :: q in s.apps && q != p ==> t.apps[q] == s.apps[q])
      && (forall n :: n in t.sent && n != e.src.name ==> n in s.sent && t.sent[n] == s.sent[n])
      && (forall n :: n in s.sent ==> n in t.sent)
      && (!s.ready ==> t.sent == s.sent)
  {
  }

  lemma StepConsistent(cfg: Config, s: State, e: Event)
    requires Consistent(s) && OwnName(s, e)
    ensures Consistent(After(cfg, s, e))
  {
    if e.Deleted? {
      DeletedConsistent(cfg, s, e.path);
    } else if HasSource(e) {
      var t := After(cfg, s, e);
      OnlyOwnRecord(cfg, s, e);
      forall n | n in t.sent ensures exists p :: p in t.apps && t.apps[p].name == n {
        if n == e.src.name {
          assert e.src.path in t.apps;
        } else {
          var p :| p in s.apps && s.apps[p].name == n;
          assert p in t.apps;
        }
      }
    }
  }

  /** An event keeps what was sent in step with the records if and only if it does not lose track of the focus. */
  lemma StepInSync(cfg: Config, s: State, e: Event)
    requires Consistent(s) && OwnName(s, e) && InSync(cfg, s)
    ensures InSync(cfg, After(cfg, s, e)) <==> !LosesTrack(cfg, s, e)
  {
    var t := After(cfg, s, e);
    if HasSource(e) {
      var p := e.src.path;
      assert t.apps[p].name == e.src.name;
      if !Notifies(e) {
        QuietEvent(cfg, s, e);
      }
    }
  }

  /** An event that tells nobody leaves what was sent alone, and the flags. */
  lemma QuietEvent(cfg: Config, s: State, e: Event)
    requires HasSource(e) && !Notifies(e) && Consistent(s) && OwnName(s, e) && InSync(cfg, s)
    ensures InSync(cfg, After(cfg, s, e)) <==> !LosesTrack(cfg, s, e)
  {
    var t, p := After(cfg, s, e), e.src.path;
    assert t.sent == s.sent;
    if p in s.apps {
      assert t.apps[p].boosted == s.apps[p].boosted;
      assert PolicyOf(cfg, t.apps[p]) == PolicyOf(cfg, s.apps[p])
        <==> (t.apps[p].timestamp == FOCUSED) == (s.apps[p].timestamp == FOCUSED)
             || (cfg.activeCpu == cfg.defaultCpu && cfg.activeIo == cfg.defaultIo);
    }
    assert forall q :: q in s.apps && q != p ==> t.apps[q] == s.apps[q];
  }

  function Run(cfg: Config, s: State, events: seq<Event>): State {
    if events == [] then s else After(cfg, Run(cfg, s, events[..|events| - 1]), events[|events| - 1])
  }

  const NOTHING := State(map[], false, map[])

  // ------------------------------------------------------- what a trace says

  predicate About(e: Event, path: string) { HasSource(e) && e.src.path == path }

  /** The focus of an application after an event, given the one before: read whenever the attribute is there. */
  function FocusNext(before: bool, e: Event, path: string): bool {
    if About(e, path) then (if e.src.files.since.Some? then e.src.files.since.value == -1 else before)
    else before && e != Deleted(path)
  }

  /** The events that tell: a changed attribute, a game, and an audio node that runs, idles or is suspended. */
  predicate Tells(e: Event) { e.Attrib? || e.Game? || (e.Audio? && e.node in {Running, NodeIdle, Suspended}) }

  /** Some event of the trace switches on, and none behind it switches off. */
  ghost predicate Latched(events: seq<Event>, on: Event -> bool, off: Event -> bool) {
    exists k :: 0 <= k < |events| && on(events[k]) && forall j :: k < j < |events| ==> !off(events[j])
  }

  lemma LatchedNext(events: seq<Event>, on: Event -> bool, off: Event -> bool)
    requires events != []
    ensures
      var before, e := events[..|events| - 1], events[|events| - 1];
      Latched(events, on, off) <==> on(e) || (Latched(before, on, off) && !off(e))
  {
    assert events == events[..|events| - 1] + [events[|events| - 1]];
  }

  function FocusGained(path: string): Event -> bool {
    e => About(e, path) && e.src.files.since == Some(-1)
  }

  function FocusLost(path: string): Event -> bool {
    e => e == Deleted(path) || (About(e, path) && e.src.files.since.Some? && e.src.files.since.value != -1)
  }

  /** The focus as it was last read: the attribute was -1 once, and since then neither anything else nor was the
      directory deleted. */
  ghost predicate Focus(events: seq<Event>, path: string) {
    Latched(events, FocusGained(path), FocusLost(path))
  }

  /** The focus an application had when weights were last sent for it; None if none were. */
  ghost function ToldFocus(events: seq<Event>, path: string): Option<bool> {
    if events == [] then None
    else
      var before, e := events[..|events| - 1], events[|events| - 1];
      if e == Deleted(path) then None
      else if About(e, path) && Tells(e) && ProxyReady in before then Some(Focus(events, path))
      else ToldFocus(before, path)
  }

  /** Events bring unit names by path, and no two paths share one. */
  ghost predicate Named(events: seq<Event>, name: string -> string) {
    && (forall e :: e in events && HasSource(e) ==> e.src.name == name(e.src.path))
    && (forall p, q :: name(p) == name(q) ==> p == q)
  }

  ghost predicate NamesKept(s: State, name: string -> string) {
    forall p :: p in s.apps ==> s.apps[p].name == name(p)
  }

  lemma NamedPrefix(events: seq<Event>, name: string -> string)
    requires Named(events, name) && events != []
    ensures Named(events[..|events| - 1], name)
  {
    assert forall e :: e in events[..|events| - 1] ==> e in events;
  }

  lemma StepKeepsNames(cfg: Config, s: State, e: Event, name: string -> string)
    requires NamesKept(s, name) && (HasSource(e) ==> e.src.name == name(e.src.path))
    ensures NamesKept(After(cfg, s, e), name)
  {
    var t := After(cfg, s, e);
    forall p | p in t.apps ensures t.apps[p].name == name(p) {
      if HasSource(e) && p == e.src.path {
        assert t.apps[p].name == Record(s, e.src).name;
      } else {
        assert t.apps[p] == s.apps[p];
      }
    }
  }

  lemma {:induction false} RunKeepsNames(cfg: Config, events: seq<Event>, name: string -> string)
    requires Named(events, name)
    ensures NamesKept(Run(cfg, NOTHING, events), name)
  {
    if events != [] {
      var n := |events| - 1;
      NamedPrefix(events, name);
      RunKeepsNames(cfg, events[..n], name);
      assert events[n] in events;
      StepKeepsNames(cfg, Run(cfg, NOTHING, events[..n]), events[n], name);
    }
  }

  lemma NamedIsOwn(s: State, e: Event, name: string -> string)
    requires NamesKept(s, name) && (forall p, q :: name(p) == name(q) ==> p == q)
    requires HasSource(e) ==> e.src.name == name(e.src.path)
    ensures OwnName(s, e)
  {
  }

  lemma {:induction false} RunConsistent(cfg: Config, events: seq<Event>, name: string -> string)
    requires Named(events, name)
    ensures Consistent(Run(cfg, NOTHING, events))
  {
    if events != [] {
      var n := |events| - 1;
      NamedPrefix(events, name);
      RunConsistent(cfg, events[..n], name);
      RunKeepsNames(cfg, events[..n], name);
      assert events[n] in events;
      NamedIsOwn(Run(cfg, NOTHING, events[..n]), events[n], name);
      StepConsistent(cfg, Run(cfg, NOTHING, events[..n]), events[n]);
    }
  }

  /** In every state that can be reached in step, the next event keeps it so if and only if it does not lose track. */
  lemma NextInSync(cfg: Config, events: seq<Event>, e: Event, name: string -> string)
    requires Named(events + [e], name) && InSync(cfg, Run(cfg, NOTHING, events))
    ensures InSync(cfg, Run(cfg, NOTHING, events + [e])) <==> !LosesTrack(cfg, Run(cfg, NOTHING, events), e)
  {
    var all, s := events + [e], Run(cfg, NOTHING, events);
    assert all[..|all| - 1] == events;
    NamedPrefix(all, name);
    RunConsistent(cfg, events, name);
    RunKeepsNames(cfg, events, name);
    assert e in all;
    NamedIsOwn(s, e, name);
    StepInSync(cfg, s, e);
  }

  /** The state says of a path what the trace says: the focus last read, whether anything was sent for it, and that
      this was the policy of the focus of then and the flags of now. */
  ghost predicate Follows(cfg: Config, s: State, path: string, name: string, focus: bool, told: Option<bool>) {
    && (path in s.apps ==> s.apps[path].name == name && (s.apps[path].timestamp == FOCUSED) == focus)
    && (path !in s.apps ==> !focus && told.None?)
    && (name in s.sent <==> told.Some?)
    && (told.Some? ==> s.ready && s.sent[name] == Policy(cfg, told.value, s.apps[path].boosted != BOOST_NONE))
  }

  lemma FollowsOwn(cfg: Config, s: State, e: Event, path: string, focus: bool, told: Option<bool>)
    requires About(e, path) && Follows(cfg, s, path, e.src.name, focus, told)
    ensures
      var next := FocusNext(focus, e, path);
      Follows(cfg, After(cfg, s, e), path, e.src.name, next, if Notifies(e) && s.ready then Some(next) else told)
  {
  }

  lemma FollowsOther(cfg: Config, s: State, e: Event, path: string, name: string, focus: bool, told: Option<bool>)
    requires !About(e, path) && e != Deleted(path) && Follows(cfg, s, path, name, focus, told)
    requires HasSource(e) ==> Record(s, e.src).name != name
    requires e.Deleted? && e.path in s.apps ==> s.apps[e.path].name != name
    ensures Follows(cfg, After(cfg, s, e), path, name, focus, told)
  {
  }

  /** An event that is not a path's own brings, and deletes, another name. */
  lemma OthersAreOthers(s: State, e: Event, path: string, name: string -> string)
    requires NamesKept(s, name) && (forall p, q :: name(p) == name(q) ==> p == q)
    requires HasSource(e) ==> e.src.name == name(e.src.path)
    requires !About(e, path) && e != Deleted(path)
    ensures HasSource(e) ==> Record(s, e.src).name != name(path)
    ensures e.Deleted? && e.path in s.apps ==> s.apps[e.path].name != name(path)
  {
  }

  lemma {:induction false} RunReady(cfg: Config, events: seq<Event>)
    ensures Run(cfg, NOTHING, events).ready <==> ProxyReady in events
  {
    if events != [] {
      var n := |events| - 1;
      RunReady(cfg, events[..n]);
      assert events == events[..n] + [events[n]];
    }
  }

  lemma {:induction false} RunFollows(cfg: Config, events: seq<Event>, name: string -> string, path: string)
    requires Named(events, name)
    ensures Follows(cfg, Run(cfg, NOTHING, events), path, name(path), Focus(events, path), ToldFocus(events, path))
  {
    if events != [] {
      var n := |events| - 1;
      var s, e := Run(cfg, NOTHING, events[..n]), events[n];
      NamedPrefix(events, name);
      RunFollows(cfg, events[..n], name, path);
      RunKeepsNames(cfg, events[..n], name);
      RunReady(cfg, events[..n]);
      LatchedNext(events, FocusGained(path), FocusLost(path));
      assert e in events;
      if About(e, path) {
        FollowsOwn(cfg, s, e, path, Focus(events[..n], path), ToldFocus(events[..n], path));
      } else if e != Deleted(path) {
        OthersAreOthers(s, e, path, name);
        FollowsOther(cfg, s, e, path, name(path), Focus(events[..n], path), ToldFocus(events[..n], path));
      }
    }
  }

  predicate SameWeights(cfg: Config) { cfg.activeCpu == cfg.defaultCpu && cfg.activeIo == cfg.defaultIo }

  lemma PolicyOfFocus(cfg: Config, f: bool, g: bool, boosted: bool)
    ensures Policy(cfg, f, boosted) == Policy(cfg, g, boosted) <==> f == g || SameWeights(cfg)
  {
  }

  /** Over every interleaving: weights were sent for an application exactly if an event of its own told of it after
      the proxy was there, and the last ones are the policy of its present focus and flags if and only if the focus
      is the one of that last telling, or focus makes no difference. */
  lemma RunInSync(cfg: Config, events: seq<Event>, name: string -> string, path: string)
    requires Named(events, name) && path in Run(cfg, NOTHING, events).apps
    ensures
      var s, told := Run(cfg, NOTHING, events), ToldFocus(events, path);
      && (name(path) in s.sent <==> told.Some?)
      && (told.Some? ==> (s.sent[name(path)] == PolicyOf(cfg, s.apps[path])
                          <==> told.value == Focus(events, path) || SameWeights(cfg)))
  {
    RunFollows(cfg, events, name, path);
    var s, told := Run(cfg, NOTHING, events), ToldFocus(events, path);
    if told.Some? { PolicyOfFocus(cfg, told.value, Focus(events, path), s.apps[path].boosted != BOOST_NONE); }
  }

  /** The numbers: after any interleaving an application was last sent, for CPU and for IO each from the weights of its
      own kind, the active weight if it had the focus at its last telling and the default one if not, and the boost on
      top if the last word on audio or on the game says so. */
  lemma SentByFields(cfg: Config, events: seq<Event>, name: string -> string, path: string)
    requires Named(events, name) && ToldFocus(events, path).Some?
    ensures
      var s, focused := Run(cfg, NOTHING, events), ToldFocus(events, path).value;
      var boosted := AudioVerdict(events, path) || GameVerdict(events, path);
      && name(path) in s.sent
      && s.sent[name(path)].cpu
         == (if focused then cfg.activeCpu else cfg.defaultCpu) + (if boosted then cfg.incCpu else 0)
      && s.sent[name(path)].io
         == (if focused then cfg.activeIo else cfg.defaultIo) + (if boosted then cfg.incIo else 0)
  {
    RunFollows(cfg, events, name, path);
    FlagsAreLastVerdicts(cfg, events, path);
  }

  /** A record after an event of its own: the files' weights, 100 where they cannot be read, or those of the policy if
      others are told. The attribute overrides the time the record was made at. */
  lemma RecordByFields(cfg: Config, s: State, e: Event)
    requires HasSource(e)
    ensures
      var files, r := e.src.files, After(cfg, s, e).apps[e.src.path];
      && r.timestamp == (match files.since
                         case Some(since) => since
                         case None => if e.src.path in s.apps then s.apps[e.src.path].timestamp else e.src.now)
      && (!Tells(e) ==> r.cpu == (if files.cpu == 0 then 100 else files.cpu)
                        && r.io == (if files.io == 0 then 100 else files.io))
      && (Tells(e) ==>
            var boosted := r.boosted.audio || r.boosted.game;
            var focused := r.timestamp == -1;
            && r.cpu == (if focused then cfg.activeCpu else cfg.defaultCpu) + (if boosted then cfg.incCpu else 0)
            && r.io == (if focused then cfg.activeIo else cfg.defaultIo) + (if boosted then cfg.incIo else 0))
  {
  }

  /** So whatever was lost before, the next event that tells of the application puts it right. */
  lemma TellingRegains(cfg: Config, events: seq<Event>, e: Event, name: string -> string)
    requires Named(events + [e], name) && Tells(e) && ProxyReady in events
    ensures
      var s := Run(cfg, NOTHING, events + [e]);
      e.src.path in s.apps && name(e.src.path) in s.sent
      && s.sent[name(e.src.path)] == PolicyOf(cfg, s.apps[e.src.path])
  {
    var all := events + [e];
    assert all[..|all| - 1] == events;
    assert ToldFocus(all, e.src.path) == Some(Focus(all, e.src.path));
    assert e.src.path in Run(cfg, NOTHING, all).apps;
    RunInSync(cfg, all, name, e.src.path);
  }

  ghost predicate OnlyPolicySent(cfg: Config, s: State) {
    forall n :: n in s.sent ==> exists focused, boosted :: s.sent[n] == Policy(cfg, focused, boosted)
  }

  lemma StepSendsPolicy(cfg: Config, s: State, e: Event)
    requires OnlyPolicySent(cfg, s)
    ensures OnlyPolicySent(cfg, After(cfg, s, e))
  {
    if HasSource(e) && Notifies(e) {
      var r := Flagged(Record(s, e.src), e);
      assert PolicyOf(cfg, r) == Policy(cfg, r.timestamp == FOCUSED, r.boosted != BOOST_NONE);
    }
  }

  lemma {:induction false} RunSendsPolicy(cfg: Config, events: seq<Event>)
    ensures OnlyPolicySent(cfg, Run(cfg, NOTHING, events))
  {
    if events != [] {
      var n := |events| - 1;
      RunSendsPolicy(cfg, events[..n]);
      StepSendsPolicy(cfg, Run(cfg, NOTHING, events[..n]), events[n]);
    }
  }

  /** After any trace every weight last sent is in systemd's range. */
  ghost predicate EveryTraceInRange(cfg: Config) {
    forall events, name :: name in Run(cfg, NOTHING, events).sent ==> InRange(Run(cfg, NOTHING, events).sent[name])
  }

  /** A game that registers, with the proxy ready, is sent the boosted default weights. */
  lemma GameIsSentBoost(cfg: Config, src: Source)
    requires src.files.since.None?
    ensures
      var s := Run(cfg, NOTHING, [ProxyReady, Game(src, true)]);
      src.name in s.sent && s.sent[src.name] == Policy(cfg, false, true)
  {
    var e := Game(src, true);
    var one: seq<Event>, two: seq<Event> := [ProxyReady], [ProxyReady, e];
    assert two[..1] == one && one[..0] == [];
    var s := After(cfg, NOTHING, ProxyReady);
    assert Run(cfg, NOTHING, one) == s;
    assert Run(cfg, NOTHING, two) == After(cfg, s, e);
  }

  /** So whatever the file says, everything sent after any trace is in range if and only if the boost on top of the
      default weight is. */
  lemma EverySentInRange(keys: Keys)
    ensures
      var cfg := ReadConfig(keys);
      EveryTraceInRange(cfg)
      <==> cfg.defaultCpu + cfg.incCpu <= 10000 && cfg.defaultIo + cfg.incIo <= 10000
  {
    var cfg := ReadConfig(keys);
    WeightsInRange(keys);
    if EveryTraceInRange(cfg) {
      var src := Source("a", "a.service", 0, Files(100, 100, None));
      GameIsSentBoost(cfg, src);
      assert InRange(Run(cfg, NOTHING, [ProxyReady, Game(src, true)]).sent[src.name]);
    }
    if forall focused, boosted :: InRange(Policy(cfg, focused, boosted)) {
      forall events, name | name in Run(cfg, NOTHING, events).sent
        ensures InRange(Run(cfg, NOTHING, events).sent[name])
      {
        RunSendsPolicy(cfg, events);
      }
    }
  }

  /** In particular when the default is at most the active weight. */
  lemma DefaultBelowActiveInRange(keys: Keys)
    requires
      var cfg := ReadConfig(keys);
      cfg.defaultCpu <= cfg.activeCpu && cfg.defaultIo <= cfg.activeIo
    ensures EveryTraceInRange(ReadConfig(keys))
  {
    EverySentInRange(keys);
  }

  // -------------------------------------------------------------------- stop

  predicate Resets(r: Rec) { r.timestamp == FOCUSED || r.boosted != BOOST_NONE }

  function ResetRec(cfg: Config, r: Rec, now: nat): Rec {
    Weighted(cfg, r.(timestamp := now, boosted := BOOST_NONE))
  }

  function ResetNames(s: State): set<string> {
    set p | p in s.apps && Resets(s.apps[p]) :: s.apps[p].name
  }

  /** The reset of all records at stop: those focused or boosted are set back and sent the default weights. */
  function AfterReset(cfg: Config, s: State, now: nat): State {
    s.(apps := map p | p in s.apps :: if Resets(s.apps[p]) then ResetRec(cfg, s.apps[p], now) else s.apps[p],
       sent := if !s.ready then s.sent else s.sent + map n | n in ResetNames(s) :: Policy(cfg, false, false))
  }

  /** What a unit was last sent after the reset: the defaults if the reset touched its record, otherwise what it was
      sent before. */
  lemma ResetTells(cfg: Config, s: State, now: nat, path: string, name: string -> string)
    requires NamesKept(s, name) && (forall p, q :: name(p) == name(q) ==> p == q) && path in s.apps
    ensures
      var n, t := name(path), AfterReset(cfg, s, now);
      if s.ready && Resets(s.apps[path]) then n in t.sent && t.sent[n] == Policy(cfg, false, false)
      else (n in t.sent <==> n in s.sent) && (n in s.sent ==> t.sent[n] == s.sent[n])
  {
    assert name(path) in ResetNames(s) <==> Resets(s.apps[path]);
  }

  /** After any interleaving stop leaves an application with the default weights, or untold, if and only if it was not
      last told of with the focus, or has the focus or a flag now, or focus makes no difference. */
  lemma StopRestoresDefaults(cfg: Config, events: seq<Event>, now: nat, name: string -> string, path: string)
    requires Named(events, name) && path in Run(cfg, NOTHING, events).apps
    ensures
      var t := AfterReset(cfg, Run(cfg, NOTHING, events), now);
      (name(path) in t.sent ==> t.sent[name(path)] == Policy(cfg, false, false))
      <==> (ToldFocus(events, path) == Some(true) ==>
              Focus(events, path) || AudioVerdict(events, path) || GameVerdict(events, path) || SameWeights(cfg))
  {
    var s, told := Run(cfg, NOTHING, events), ToldFocus(events, path);
    RunFollows(cfg, events, name, path);
    RunKeepsNames(cfg, events, name);
    FlagsAreLastVerdicts(cfg, events, path);
    ResetTells(cfg, s, now, path, name);
    if told.Some? { PolicyOfFocus(cfg, told.value, false, false); }
  }

  /** In numbers: every application with the focus or a flag, once the proxy is there, is sent the two default weights
      at stop, and no record is left with either. */
  lemma StopByFields(cfg: Config, events: seq<Event>, now: nat, name: string -> string, path: string)
    requires Named(events, name) && path in Run(cfg, NOTHING, events).apps
    ensures
      var t := AfterReset(cfg, Run(cfg, NOTHING, events), now);
      && path in t.apps && t.apps[path].timestamp != -1
      && !t.apps[path].boosted.audio && !t.apps[path].boosted.game
      && (ProxyReady in events
          && (Focus(events, path) || AudioVerdict(events, path) || GameVerdict(events, path)) ==>
            && name(path) in t.sent
            && t.sent[name(path)].cpu == cfg.defaultCpu && t.sent[name(path)].io == cfg.defaultIo)
  {
    var s := Run(cfg, NOTHING, events);
    RunFollows(cfg, events, name, path);
    RunKeepsNames(cfg, events, name);
    RunReady(cfg, events);
    FlagsAreLastVerdicts(cfg, events, path);
    ResetTells(cfg, s, now, path, name);
  }

  /** Why track matters: a focused application, told the active weights, loses the focus; the attribute is first read
      for a node that is being created. Stop then passes over the record and the active weights stay. */
  lemma LostTrackOutlivesStop(cfg: Config, now: nat)
    requires cfg.activeCpu != cfg.defaultCpu
    ensures
      var focus, blur := Files(100, 100, Some(FOCUSED)), Files(100, 100, Some(7));
      var s := After(cfg, After(cfg, After(cfg, NOTHING, ProxyReady), Attrib(Source("a", "a.service", 1, focus))),
                     Audio(Source("a", "a.service", 2, blur), Creating));
      var t := AfterReset(cfg, s, now);
      "a.service" in t.sent && t.sent["a.service"] == Policy(cfg, true, false) != Policy(cfg, false, false)
  {
    var focus, blur := Files(100, 100, Some(FOCUSED)), Files(100, 100, Some(7));
    var s1 := After(cfg, After(cfg, NOTHING, ProxyReady), Attrib(Source("a", "a.service", 1, focus)));
    var s := After(cfg, s1, Audio(Source("a", "a.service", 2, blur), Creating));
    assert s.apps["a"].timestamp == 7 && s.apps["a"].boosted == BOOST_NONE;
    assert s.apps.Keys == {"a"};
    assert ResetNames(s) == {};
  }

  // ------------------------------------------------------------------- flags

  /** What an event says about audio for a path, and about the game; a deleted record starts anew. */
  function AudioNext(before: bool, e: Event, path: string): bool {
    match e
    case Audio(src, node) =>
      if src.path != path then before
      else if node.Running? then true else if node.NodeIdle? || node.Suspended? then false else before
    case Deleted(p) => before && p != path
    case _ => before
  }

  function GameNext(before: bool, e: Event, path: string): bool {
    match e
    case Game(src, registered) => if src.path == path then registered else before
    case Deleted(p) => before && p != path
    case _ => before
  }

  function AudioStarts(path: string): Event -> bool {
    (e: Event) => e.Audio? && e.src.path == path && e.node.Running?
  }

  function AudioStops(path: string): Event -> bool {
    e => e == Deleted(path) || (e.Audio? && e.src.path == path && (e.node.NodeIdle? || e.node.Suspended?))
  }

  /** The last word of a trace on audio: a node ran, and since then none idled or was suspended, nor was the directory
      deleted. */
  ghost predicate AudioVerdict(events: seq<Event>, path: string) {
    Latched(events, AudioStarts(path), AudioStops(path))
  }

  function GameStarts(path: string): Event -> bool {
    (e: Event) => e.Game? && e.src.path == path && e.registered
  }

  function GameStops(path: string): Event -> bool {
    e => e == Deleted(path) || (e.Game? && e.src.path == path && !e.registered)
  }

  /** And on the game: one registered, and since then none unregistered. */
  ghost predicate GameVerdict(events: seq<Event>, path: string) {
    Latched(events, GameStarts(path), GameStops(path))
  }

  function Bits(b: Boosts): bv32 {
    (if b.audio then BIT_AUDIO else 0) | (if b.game then BIT_GAME else 0)
  }

  /** Setting and clearing a bit of the enumeration is setting and clearing a flag, and no bits is no flag. */
  lemma BitsAreFlags(b: Boosts)
    ensures Bits(b) | BIT_AUDIO == Bits(b.(audio := true))
    ensures Bits(b) & !BIT_AUDIO == Bits(b.(audio := false))
    ensures Bits(b) | BIT_GAME == Bits(b.(game := true))
    ensures Bits(b) & !BIT_GAME == Bits(b.(game := false))
    ensures Bits(b) == 0 <==> b == BOOST_NONE
  {
    if b.audio { if b.game { } else { } } else { if b.game { } else { } }
  }

  /** A path's record, if any, carries these flags; without one there are none. */
  ghost predicate Carries(s: State, path: string, audio: bool, game: bool) {
    if path in s.apps then s.apps[path].boosted == Boosts(audio, game) else !audio && !game
  }

  lemma StoredFlags(cfg: Config, s: State, e: Event)
    requires HasSource(e)
    ensures e.src.path in After(cfg, s, e).apps
    ensures After(cfg, s, e).apps[e.src.path].boosted == Flagged(Record(s, e.src), e).boosted
  {
  }

  lemma CarriesStep(cfg: Config, s: State, e: Event, path: string, audio: bool, game: bool)
    requires Carries(s, path, audio, game)
    ensures Carries(After(cfg, s, e), path, AudioNext(audio, e, path), GameNext(game, e, path))
  {
    if HasSource(e) && e.src.path == path {
      StoredFlags(cfg, s, e);
    } else {
      assert AudioNext(audio, e, path) == (audio && e != Deleted(path));
      assert GameNext(game, e, path) == (game && e != Deleted(path));
    }
  }

  /** After any trace a record's flags are exactly the last audio verdict and the last game verdict, and a path with
      no record has no verdict left. */
  lemma {:induction false} FlagsAreLastVerdicts(cfg: Config, events: seq<Event>, path: string)
    ensures Carries(Run(cfg, NOTHING, events), path, AudioVerdict(events, path), GameVerdict(events, path))
  {
    if events != [] {
      var n := |events| - 1;
      FlagsAreLastVerdicts(cfg, events[..n], path);
      LatchedNext(events, AudioStarts(path), AudioStops(path));
      LatchedNext(events, GameStarts(path), GameStops(path));
      CarriesStep(cfg, Run(cfg, NOTHING, events[..n]), events[n], path,
                  AudioVerdict(events[..n], path), GameVerdict(events[..n], path));
    }
  }

  /** A record put in place and its weights sent. */
  function Sent(s: State, path: string, r: Rec): State {
    State(s.apps[path := r], s.ready, if s.ready then s.sent[r.name := Weights(r.cpu, r.io)] else s.sent)
  }

  lemma NotifyingEvent(cfg: Config, s: State, e: Event)
    requires Notifies(e)
    ensures After(cfg, s, e) == Sent(s, e.src.path, Weighted(cfg, Flagged(Record(s, e.src), e)))
  {
    var r := Flagged(Record(s, e.src), e);
    assert s.apps[e.src.path := r][e.src.path := Weighted(cfg, r)] == s.apps[e.src.path := Weighted(cfg, r)];
  }

  lemma SentTwice(s: State, path: string, r: Rec, q: Rec)
    requires r.name == q.name
    ensures Sent(Sent(s, path, r), path, q) == Sent(s, path, q)
  {
    assert s.apps[path := r][path := q] == s.apps[path := q];
    assert s.sent[r.name := Weights(r.cpu, r.io)][q.name := Weights(q.cpu, q.io)]
        == s.sent[q.name := Weights(q.cpu, q.io)];
  }

  function Handled(cfg: Config, r: Rec, e: Event): Rec
    requires HasSource(e)
  {
    Weighted(cfg, Flagged(Refreshed(r, e.src.files), e))
  }

  lemma RecordsCommute(cfg: Config, r: Rec, src: Source, node: Node, registered: bool)
    requires Notifies(Audio(src, node))
    ensures Handled(cfg, Handled(cfg, r, Audio(src, node)), Game(src, registered))
            == Handled(cfg, Handled(cfg, r, Game(src, registered)), Audio(src, node))
  {
  }

  lemma TwoEvents(cfg: Config, s: State, e: Event, f: Event, r: Rec)
    requires Notifies(e) && Notifies(f) && e.src == f.src
    requires r == (if e.src.path in s.apps then s.apps[e.src.path] else Fresh(e.src.name, e.src.now))
    ensures After(cfg, After(cfg, s, e), f) == Sent(s, e.src.path, Handled(cfg, Handled(cfg, r, e), f))
  {
    var re := Handled(cfg, r, e);
    var t := Sent(s, e.src.path, re);
    NotifyingEvent(cfg, s, e);
    assert Record(s, e.src) == Refreshed(r, e.src.files);
    assert After(cfg, s, e) == t;
    NotifyingEvent(cfg, t, f);
    assert Record(t, f.src) == Refreshed(re, f.src.files);
    SentTwice(s, e.src.path, re, Handled(cfg, re, f));
  }

  /** An audio and a game event on the same application commute, down to what was last sent. */
  lemma AudioGameCommute(cfg: Config, s: State, src: Source, node: Node, registered: bool)
    requires Notifies(Audio(src, node))
    ensures After(cfg, After(cfg, s, Audio(src, node)), Game(src, registered))
            == After(cfg, After(cfg, s, Game(src, registered)), Audio(src, node))
  {
    var r := if src.path in s.apps then s.apps[src.path] else Fresh(src.name, src.now);
    TwoEvents(cfg, s, Audio(src, node), Game(src, registered), r);
    TwoEvents(cfg, s, Game(src, registered), Audio(src, node), r);
    RecordsCommute(cfg, r, src, node, registered);
  }

  /** The same record, whatever happened to another application. */
  lemma OtherRecord(cfg: Config, s: State, e: Event, src: Source)
    requires HasSource(e) && e.src.path != src.path
    ensures Record(After(cfg, s, e), src) == Record(s, src)
  {
  }

  function Outcome(cfg: Config, s: State, e: Event): Rec
    requires HasSource(e)
  {
    var r := Flagged(Record(s, e.src), e);
    if Notifies(e) then Weighted(cfg, r) else r
  }

  /** A record put in place, and its weights sent if others are told. */
  function Put(s: State, path: string, r: Rec, tell: bool): State {
    if tell then Sent(s, path, r) else Stored(s, path, r)
  }

  lemma AfterPuts(cfg: Config, s: State, e: Event)
    requires HasSource(e)
    ensures After(cfg, s, e) == Put(s, e.src.path, Outcome(cfg, s, e), Notifies(e))
  {
    if Notifies(e) { NotifyingEvent(cfg, s, e); }
  }

  lemma PutsCommute(s: State, p: string, r: Rec, tell: bool, q: string, r': Rec, tell': bool)
    requires p != q && r.name != r'.name
    ensures Put(Put(s, p, r, tell), q, r', tell') == Put(Put(s, q, r', tell'), p, r, tell)
  {
    assert s.apps[p := r][q := r'] == s.apps[q := r'][p := r];
    var w, w' := Weights(r.cpu, r.io), Weights(r'.cpu, r'.io);
    assert s.sent[r.name := w][r'.name := w'] == s.sent[r'.name := w'][r.name := w];
  }

  /** Any two events on two applications, with paths and names of their own, commute. */
  lemma DistinctAppsCommute(cfg: Config, s: State, e: Event, f: Event)
    requires HasSource(e) && HasSource(f) && e.src.path != f.src.path
    requires Record(s, e.src).name != Record(s, f.src).name
    ensures After(cfg, After(cfg, s, e), f) == After(cfg, After(cfg, s, f), e)
  {
    OtherRecord(cfg, s, e, f.src);
    OtherRecord(cfg, s, f, e.src);
    AfterPuts(cfg, s, e);
    AfterPuts(cfg, s, f);
    AfterPuts(cfg, After(cfg, s, e), f);
    AfterPuts(cfg, After(cfg, s, f), e);
    PutsCommute(s, e.src.path, Outcome(cfg, s, e), Notifies(e), f.src.path, Outcome(cfg, s, f), Notifies(f));
  }
}
