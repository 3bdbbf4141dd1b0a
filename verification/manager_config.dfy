/** The manager's part of the configuration file. */
module ManagerConfig {
  import opened Options
  import opened Allocation
  import opened MemoryConfig

  /** A memory key as text, None if missing; a weight as a number, None if missing or not an integer. */
  datatype Keys = Keys(maxMemoryMin: Option<string>, maxMemoryLow: Option<string>,
                       memoryMin: Option<string>, memoryLow: Option<string>,
                       cpuWeight: Option<int>, ioWeight: Option<int>)

  /** Before anything is read: no memory, and both weights ignored. */
  const UNREAD := Config(RAllocation(WEIGHT_IGNORE, WEIGHT_IGNORE, 0, 0), 0, 0)

  function BytesOf(text: Option<string>, ram: U64): U64 {
    match AmountOf(text, ram) case Bytes(bytes) => bytes case Bad => 0
  }

  /** GLib reads 0 where there is no integer; the error is only cleared. */
  function WeightOf(key: Option<int>): int { if key.Some? then key.value else 0 }

  function ReadConfig(file: Option<Keys>, ram: U64): Config {
    match file
    case None => UNREAD
    case Some(keys) =>
      Config(RAllocation(WeightOf(keys.cpuWeight), WeightOf(keys.ioWeight),
                         BytesOf(keys.memoryMin, ram), BytesOf(keys.memoryLow, ram)),
             BytesOf(keys.maxMemoryMin, ram), BytesOf(keys.maxMemoryLow, ram))
  }

  method ReadConfigFile(file: Option<Keys>, ram: U64) returns (cfg: Config)
    ensures cfg == ReadConfig(file, ram)
  {
    cfg := UNREAD;
    if file.None? { return; }
    var keys := file.value;
    var bytes, failed := ConfigGetMemory(keys.maxMemoryMin, ram);
    cfg := cfg.(maxMin := bytes);
    bytes, failed := ConfigGetMemory(keys.maxMemoryLow, ram);
    cfg := cfg.(maxLow := bytes);
    bytes, failed := ConfigGetMemory(keys.memoryMin, ram);
    cfg := cfg.(active := cfg.active.(memoryMin := bytes));
    bytes, failed := ConfigGetMemory(keys.memoryLow, ram);
    cfg := cfg.(active := cfg.active.(memoryLow := bytes));
    cfg := cfg.(active := cfg.active.(cpuWeight := WeightOf(keys.cpuWeight)));
    cfg := cfg.(active := cfg.active.(ioWeight := WeightOf(keys.ioWeight)));
  }

  /** What a memory key gives: its amount, or nothing if there is none. */
  ghost predicate Gives(key: Option<string>, ram: U64, bytes: U64) {
    AmountOf(key, ram) == Bytes(bytes) || (AmountOf(key, ram) == Bad && bytes == 0)
  }

  /** Every amount is that of its own key and every weight its own key's number. Without a file there is no memory, and
      no weight to set. */
  lemma ConfigByKeys(file: Option<Keys>, ram: U64)
    ensures
      var cfg := ReadConfig(file, ram);
      match file
      case Some(keys) =>
        && Gives(keys.memoryMin, ram, cfg.active.memoryMin) && Gives(keys.memoryLow, ram, cfg.active.memoryLow)
        && Gives(keys.maxMemoryMin, ram, cfg.maxMin) && Gives(keys.maxMemoryLow, ram, cfg.maxLow)
        && (keys.cpuWeight.Some? ==> cfg.active.cpuWeight == keys.cpuWeight.value)
        && (keys.ioWeight.Some? ==> cfg.active.ioWeight == keys.ioWeight.value)
      case None =>
        && cfg.active.memoryMin == 0 && cfg.active.memoryLow == 0 && cfg.maxMin == 0 && cfg.maxLow == 0
        && cfg.active.cpuWeight == -0x8000_0000 && cfg.active.ioWeight == -0x8000_0000
  {
  }

  /** A weight is ignored if and only if no file could be read at all, or the file gives the ignored value itself; a
      missing key is the weight 0, and that is set. */
  lemma IgnoredIff(file: Option<Keys>, ram: U64)
    ensures ReadConfig(file, ram).active.cpuWeight == -0x8000_0000
      <==> file.None? || file.value.cpuWeight == Some(-0x8000_0000)
    ensures ReadConfig(file, ram).active.ioWeight == -0x8000_0000
      <==> file.None? || file.value.ioWeight == Some(-0x8000_0000)
    ensures file.Some? && file.value.cpuWeight.None? ==> ReadConfig(file, ram).active.cpuWeight == 0
    ensures file.Some? && file.value.ioWeight.None? ==> ReadConfig(file, ram).active.ioWeight == 0
  {
  }
}
