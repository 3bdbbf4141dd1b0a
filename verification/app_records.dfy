/** The shared application records as objects, changed in place by whoever gets hold of them: the directory monitor,
    the audio and game monitors, and the policy's handler. */
module AppRecords {
  import opened Options
  import opened AppPolicy

  class AppInfo {
    const path: string
    const name: string
    var cpuWeight: int
    var ioWeight: int
    var timestamp: int
    var boosted: Boosts

    constructor (path: string, name: string, now: nat)
      ensures this.path == path && Value() == Fresh(name, now)
    {
      this.path, this.name := path, name;
      cpuWeight, ioWeight, timestamp, boosted := 100, 100, now, BOOST_NONE;
    }

    function Value(): Rec reads this {
      Rec(name, cpuWeight, ioWeight, timestamp, boosted)
    }

    /** What is read from the files of the cgroup: unreadable weights count as 100. */
    method ReadFiles(files: Files)
      modifies this
      ensures Value() == Refreshed(old(Value()), files)
    {
      cpuWeight := files.cpu;
      if cpuWeight == 0 { cpuWeight := 100; }
      ioWeight := files.io;
      if ioWeight == 0 { ioWeight := 100; }
      if files.since.Some? { timestamp := files.since.value; }
    }

    /** The weights the policy gives for the focus and the flags. */
    method SetWeights(cfg: Config)
      modifies this
      ensures Value() == Weighted(cfg, old(Value()))
    {
      cpuWeight := if timestamp == FOCUSED then cfg.activeCpu else cfg.defaultCpu;
      ioWeight := if timestamp == FOCUSED then cfg.activeIo else cfg.defaultIo;
      if boosted != BOOST_NONE {
        cpuWeight := cpuWeight + cfg.incCpu;
        ioWeight := ioWeight + cfg.incIo;
      }
    }
  }

  /** The policy's own fields. */
  class RAppPolicy {
    var defaultCpuWeight: int
    var defaultIoWeight: int
    var activeCpuWeight: int
    var activeIoWeight: int
    var boostCpuWeightInc: int
    var boostIoWeightInc: int

    function Cfg(): Config reads this {
      Config(defaultCpuWeight, defaultIoWeight, activeCpuWeight, activeIoWeight, boostCpuWeightInc, boostIoWeightInc)
    }

    /** A key that cannot be read keeps the value; a file that cannot be read has no key. The boosts are clamped last,
        against the active weights as they are by then. */
    method ReadConfigFile(file: Option<Keys>)
      modifies this
      ensures Cfg() == ReadConfig(if file.Some? then file.value else Keys(None, None, None, None, None, None))
    {
      defaultCpuWeight, defaultIoWeight := 100, 100;
      activeCpuWeight, activeIoWeight := 100, 100;
      boostCpuWeightInc, boostIoWeightInc := 0, 0;
      if file.None? { return; }
      var keys := file.value;
      defaultCpuWeight := KeyOr(keys.defaultCpu, defaultCpuWeight);
      defaultCpuWeight := Clamp(defaultCpuWeight, 1, MAX_WEIGHT);
      defaultIoWeight := KeyOr(keys.defaultIo, defaultIoWeight);
      defaultIoWeight := Clamp(defaultIoWeight, 1, MAX_WEIGHT);
      activeCpuWeight := KeyOr(keys.activeCpu, activeCpuWeight);
      activeCpuWeight := Clamp(activeCpuWeight, 1, MAX_WEIGHT);
      activeIoWeight := KeyOr(keys.activeIo, activeIoWeight);
      activeIoWeight := Clamp(activeIoWeight, 1, MAX_WEIGHT);
      boostCpuWeightInc := KeyOr(keys.incCpu, boostCpuWeightInc);
      boostCpuWeightInc := Clamp(boostCpuWeightInc, 0, MAX_WEIGHT - activeCpuWeight);
      boostIoWeightInc := KeyOr(keys.incIo, boostIoWeightInc);
      boostIoWeightInc := Clamp(boostIoWeightInc, 0, MAX_WEIGHT - activeIoWeight);
    }
  }

  /** The monitor's table of records together with the policy that listens to it. */
  class Daemon {
    const cfg: Config
    var table: map<string, AppInfo>
    var proxy: bool
    ghost var sent: map<string, Weights>

    /** Each record is in the table once, under its path. */
    ghost predicate Valid() reads this, table.Values {
      forall p :: p in table ==> table[p].path == p
    }

    function Apps(): map<string, Rec> reads this, table.Values {
      map p | p in table :: table[p].Value()
    }

    ghost function Now(): State reads this, table.Values {
      State(Apps(), proxy, sent)
    }

    constructor (cfg: Config)
      ensures Valid() && Now() == NOTHING && this.cfg == cfg
    {
      this.cfg := cfg;
      table, proxy, sent := map[], false, map[];
    }

    method SystemdBusProxyReady()
      requires Valid()
      modifies this`proxy
      ensures Valid() && Now() == After(cfg, old(Now()), ProxyReady)
    {
      proxy := true;
    }

    /** The record of a path, made if there is none. */
    method FindOrMake(src: Source) returns (app: AppInfo)
      requires Valid()
      modifies this`table
      ensures Valid() && src.path in table && table[src.path] == app
      ensures forall o :: o in table.Values ==> o in old(table.Values) || fresh(o)
      ensures
        var r := if src.path in old(table) then old(table[src.path].Value()) else Fresh(src.name, src.now);
        Apps() == old(Apps())[src.path := r]
    {
      if src.path in table {
        app := table[src.path];
      } else {
        app := new AppInfo(src.path, src.name, src.now);
        table := table[src.path := app];
      }
    }

    /** One record of the table changed and nothing else did. */
    twostate lemma OneChanged(app: AppInfo)
      requires old(Valid()) && Valid() && table == old(table) && app.path in table && table[app.path] == app
      requires forall o :: o in table.Values && o != app ==> unchanged(o)
      ensures Apps() == old(Apps())[app.path := app.Value()]
    {
      forall p | p in table && p != app.path ensures Apps()[p] == old(Apps())[p] {
        assert table[p].path == p && table[p] in table.Values && table[p] != app;
      }
    }

    /** Makes the record if there is none, and reads the files into it. */
    method GetAppInfoFromPath(src: Source) returns (app: AppInfo)
      requires Valid()
      modifies this`table, table.Values
      ensures Valid() && src.path in table && table[src.path] == app
      ensures forall o :: o in table.Values ==> o in old(table.Values) || fresh(o)
      ensures Apps() == old(Apps())[src.path := old(Record(Now(), src))]
      ensures app.Value() == old(Record(Now(), src))
    {
      app := FindOrMake(src);
      ghost var made := Apps();
      label Made:
      app.ReadFiles(src.files);
      OneChanged@Made(app);
      TwoUpdates(old(Apps()), src.path, made[src.path], app.Value());
    }

    /** The policy's handler of the "changed" signal. */
    method AppInfoChanged(app: AppInfo)
      requires Valid() && app.path in table && table[app.path] == app
      modifies this`sent, app
      ensures Valid() && Now() == Notified(cfg, old(Now()), app.path)
    {
      app.SetWeights(cfg);
      OneChanged(app);
      if proxy {
        sent := sent[app.name := Weights(app.cpuWeight, app.ioWeight)];
      }
    }

    /** The record is as the event leaves it; those who listen are told. */
    method Announce(app: AppInfo, ghost s: State, ghost e: Event)
      requires Valid() && app.path in table && table[app.path] == app
      requires Notifies(e) && e.src.path == app.path && Now() == Stored(s, app.path, Flagged(Record(s, e.src), e))
      modifies this`sent, app
      ensures Valid() && Now() == After(cfg, s, e)
    {
      AppInfoChanged(app);
    }

    method SetBoosted(app: AppInfo, boosted: Boosts, ghost apps: map<string, Rec>, ghost r: Rec)
      requires Valid() && app.path in table && table[app.path] == app
      requires Apps() == apps[app.path := r]
      modifies app`boosted
      ensures Valid() && Apps() == apps[app.path := r.(boosted := boosted)]
    {
      assert Apps()[app.path] == app.Value() == r;
      app.boosted := boosted;
      OneChanged(app);
      TwoUpdates(apps, app.path, r, app.Value());
    }

    /** A flag changes and those who listen are told. */
    method Boost(app: AppInfo, boosted: Boosts, ghost s: State, ghost e: Event)
      requires Valid() && app.path in table && table[app.path] == app
      requires Notifies(e) && e.src.path == app.path && Now() == Stored(s, app.path, Record(s, e.src))
      requires Flagged(Record(s, e.src), e) == Record(s, e.src).(boosted := boosted)
      modifies this`sent, app
      ensures Valid() && Now() == After(cfg, s, e)
    {
      SetBoosted(app, boosted, s.apps, Record(s, e.src));
      Announce(app, s, e);
    }

    /** A directory was created. */
    method HandleCreated(src: Source)
      requires Valid()
      modifies this`table, this`sent, table.Values
      ensures Valid() && Now() == After(cfg, old(Now()), Created(src))
    {
      var app := GetAppInfoFromPath(src);
    }

    /** The attribute of a directory changed. */
    method HandleAttrib(src: Source)
      requires Valid()
      modifies this`table, this`sent, table.Values
      ensures Valid() && Now() == After(cfg, old(Now()), Attrib(src))
    {
      ghost var s := Now();
      var app := GetAppInfoFromPath(src);
      Announce(app, s, Attrib(src));
    }

    method NodeEventInfo(src: Source, node: Node)
      requires Valid()
      modifies this`table, this`sent, table.Values
      ensures Valid() && Now() == After(cfg, old(Now()), Audio(src, node))
    {
      ghost var s := Now();
      var app := GetAppInfoFromPath(src);
      if node.Running? {
        Boost(app, app.boosted.(audio := true), s, Audio(src, node));
      } else if node.NodeIdle? {
        Boost(app, app.boosted.(audio := false), s, Audio(src, node));
      } else if node.Suspended? {
        Boost(app, app.boosted.(audio := false), s, Audio(src, node));
      }
    }

    method BoostGameFromPid(src: Source, registered: bool)
      requires Valid()
      modifies this`table, this`sent, table.Values
      ensures Valid() && Now() == After(cfg, old(Now()), Game(src, registered))
    {
      ghost var s := Now();
      var app := GetAppInfoFromPath(src);
      if registered {
        Boost(app, app.boosted.(game := true), s, Game(src, registered));
      } else {
        Boost(app, app.boosted.(game := false), s, Game(src, registered));
      }
    }

    method HandleDelete(path: string)
      requires Valid()
      modifies this`table, this`sent
      ensures Valid() && Now() == After(cfg, old(Now()), Deleted(path))
    {
      if path in table {
        sent := sent - {table[path].name};
      }
      table := map p | p in table && p != path :: table[p];
    }

    // ------------------------------------------------------------ stop

    method ResetAppInfo(app: AppInfo, now: nat)
      requires Valid() && app.path in table && table[app.path] == app
      modifies this`sent, app
      ensures Valid() && Now() == ResetOne(cfg, old(Now()), app.path, now)
    {
      if app.timestamp == FOCUSED || app.boosted != BOOST_NONE {
        app.timestamp := now;
        app.boosted := BOOST_NONE;
        assert Now() == Stored(old(Now()), app.path, old(app.Value()).(timestamp := now, boosted := BOOST_NONE));
        AppInfoChanged(app);
      } else {
        assert Apps() == old(Apps())[app.path := app.Value()];
      }
    }

    /** The table is walked in any order. */
    method ResetAllApps(now: nat)
      requires Valid()
      modifies this`sent, table.Values
      ensures Valid() && Now() == AfterReset(cfg, old(Now()), now)
    {
      ghost var s := Now();
      var keys := table.Keys;
      var left := keys;
      ResetNone(cfg, s, now);
      assert keys - left == {};
      while left != {}
        invariant Valid() && table == old(table) && left <= keys
        invariant PartDone(cfg, s, now, keys - left, Now())
        decreases |left|
      {
        var p :| p in left;
        ResetNext(p, now, s, keys, left);
        left := left - {p};
      }
      ResetEvery(cfg, s, now, keys - left, Now());
    }

    method ResetNext(p: string, now: nat, ghost s: State, ghost keys: set<string>, ghost left: set<string>)
      requires Valid() && p in table && p in s.apps && p in left && left <= keys
      requires PartDone(cfg, s, now, keys - left, Now())
      modifies this`sent, table[p]
      ensures Valid() && PartDone(cfg, s, now, keys - (left - {p}), Now())
    {
      ResetAppInfo(table[p], now);
      ResetMore(cfg, s, now, keys - left, p);
      assert keys - (left - {p}) == (keys - left) + {p};
    }
  }

  lemma TwoUpdates(m: map<string, Rec>, p: string, r: Rec, q: Rec)
    ensures m[p := r][p := q] == m[p := q]
  {
  }

  /** The reset of one record, as the walk does it. */
  function ResetOne(cfg: Config, s: State, p: string, now: nat): State
    requires p in s.apps
  {
    if Resets(s.apps[p])
    then Notified(cfg, Stored(s, p, s.apps[p].(timestamp := now, boosted := BOOST_NONE)), p)
    else s
  }

  /** The reset of some of the records. */
  function ResetPart(cfg: Config, s: State, now: nat, done: set<string>): State {
    s.(apps := map p | p in s.apps ::
                 if p in done && Resets(s.apps[p]) then ResetRec(cfg, s.apps[p], now) else s.apps[p],
       sent := if !s.ready then s.sent
               else s.sent + map n | n in PartNames(s, done) :: Policy(cfg, false, false))
  }

  function PartNames(s: State, done: set<string>): set<string> {
    set p | p in s.apps && p in done && Resets(s.apps[p]) :: s.apps[p].name
  }

  /** The walk has dealt with these records. */
  ghost predicate PartDone(cfg: Config, s: State, now: nat, done: set<string>, t: State) {
    t == ResetPart(cfg, s, now, done)
  }

  lemma ResetNone(cfg: Config, s: State, now: nat)
    ensures PartDone(cfg, s, now, {}, s)
  {
    assert PartNames(s, {}) == {};
    assert ResetPart(cfg, s, now, {}).apps == s.apps;
    assert ResetPart(cfg, s, now, {}).sent == s.sent;
  }

  lemma ResetEvery(cfg: Config, s: State, now: nat, done: set<string>, t: State)
    requires PartDone(cfg, s, now, done, t) && done == s.apps.Keys
    ensures t == AfterReset(cfg, s, now)
  {
    assert PartNames(s, s.apps.Keys) == ResetNames(s);
    assert ResetPart(cfg, s, now, s.apps.Keys).apps == AfterReset(cfg, s, now).apps;
  }

  lemma PartNamesMore(s: State, done: set<string>, p: string)
    requires p in s.apps && p !in done
    ensures PartNames(s, done + {p}) == PartNames(s, done) + if Resets(s.apps[p]) then {s.apps[p].name} else {}
  {
  }

  lemma ResetMoreApps(cfg: Config, s: State, now: nat, done: set<string>, p: string)
    requires p in s.apps && p !in done
    ensures ResetOne(cfg, ResetPart(cfg, s, now, done), p, now).apps == ResetPart(cfg, s, now, done + {p}).apps
  {
    var t := ResetPart(cfg, s, now, done);
    assert t.apps[p] == s.apps[p];
  }

  lemma ResetMoreSent(cfg: Config, s: State, now: nat, done: set<string>, p: string)
    requires p in s.apps && p !in done
    ensures ResetOne(cfg, ResetPart(cfg, s, now, done), p, now).sent == ResetPart(cfg, s, now, done + {p}).sent
  {
    var t := ResetPart(cfg, s, now, done);
    assert t.apps[p] == s.apps[p];
    PartNamesMore(s, done, p);
    OneMoreKey(s.sent, PartNames(s, done), s.apps[p].name, Policy(cfg, false, false));
  }

  lemma OneMoreKey(m: map<string, Weights>, keys: set<string>, key: string, w: Weights)
    ensures (m + map n | n in keys :: w)[key := w] == m + map n | n in keys + {key} :: w
  {
  }

  lemma ResetMore(cfg: Config, s: State, now: nat, done: set<string>, p: string)
    requires p in s.apps && p !in done
    ensures ResetOne(cfg, ResetPart(cfg, s, now, done), p, now) == ResetPart(cfg, s, now, done + {p})
  {
    ResetMoreApps(cfg, s, now, done, p);
    ResetMoreSent(cfg, s, now, done, p);
  }
}
