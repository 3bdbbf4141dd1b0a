/** Records in an inotify buffer: a 16-byte header and a name of the length it gives, back to back. */
module InotifyRecords {
  import opened Options

  type Byte = x: int | 0 <= x < 256

  const WORD: int := 0x1_0000_0000
  const HEADER: nat := 16

  /** `name` is the name field with its padding. */
  datatype Record = Record(wd: int, mask: int, cookie: int, name: seq<Byte>)

  /** The fields fit the C struct: a signed descriptor, the rest unsigned 32-bit. */
  predicate Fits(r: Record) {
    -0x8000_0000 <= r.wd < 0x8000_0000 && 0 <= r.mask < WORD && 0 <= r.cookie < WORD && |r.name| < WORD
  }

  function Word(x: int): seq<Byte>
    requires 0 <= x < WORD
  {
    [x % 256, x / 256 % 256, x / 256 / 256 % 256, x / 256 / 256 / 256]
  }

  function FromWord(b: seq<Byte>): (x: int)
    requires |b| == 4
    ensures 0 <= x < WORD
  {
    var b0: int, b1: int, b2: int, b3: int := b[0], b[1], b[2], b[3];
    b0 + 256 * (b1 + 256 * (b2 + 256 * b3))
  }

  function Unsigned(x: int): int { if x < 0 then x + WORD else x }

  function Signed(x: int): int { if x < 0x8000_0000 then x else x - WORD }

  function Encode(r: Record): seq<Byte>
    requires Fits(r)
  {
    Word(Unsigned(r.wd)) + Word(r.mask) + Word(r.cookie) + Word(|r.name|) + r.name
  }

  function Serialise(rs: seq<Record>): seq<Byte>
    requires forall r :: r in rs ==> Fits(r)
  {
    if rs == [] then [] else Encode(rs[0]) + Serialise(rs[1..])
  }

  /** The record at the start of a buffer that holds at least its header and name. */
  function LengthAt(b: seq<Byte>): int
    requires |b| >= HEADER
  {
    FromWord(b[12..16])
  }

  function RecordAt(b: seq<Byte>): Record
    requires |b| >= HEADER && |b| >= HEADER + LengthAt(b)
  {
    Record(Signed(FromWord(b[..4])), FromWord(b[4..8]), FromWord(b[8..12]), b[16..16 + LengthAt(b)])
  }

  /** All records of a buffer; None if the last one is cut off. */
  function Parse(b: seq<Byte>): Option<seq<Record>>
    decreases |b|
  {
    if b == [] then Some([])
    else if |b| < HEADER || |b| < HEADER + LengthAt(b) then None
    else
      match Parse(b[HEADER + LengthAt(b)..])
      case None => None
      case Some(rest) => Some([RecordAt(b)] + rest)
  }

  lemma WordRoundTrip(x: int)
    requires 0 <= x < WORD
    ensures FromWord(Word(x)) == x
  {
    var y := x / 256;
    var z := y / 256;
    assert x == x % 256 + 256 * y && y == y % 256 + 256 * z && z == z % 256 + 256 * (z / 256);
  }

  lemma FromWordRoundTrip(b: seq<Byte>)
    requires |b| == 4
    ensures Word(FromWord(b)) == b
  {
    var b0: int, b1: int, b2: int, b3: int := b[0], b[1], b[2], b[3];
    var z := b2 + 256 * b3;
    var y := b1 + 256 * z;
    var x := b0 + 256 * y;
    assert x == FromWord(b);
    assert x / 256 == y && x % 256 == b0;
    assert y / 256 == z && y % 256 == b1;
    assert z / 256 == b3 && z % 256 == b2;
  }

  lemma EncodeFields(r: Record, rest: seq<Byte>)
    requires Fits(r)
    ensures
      var b := Encode(r) + rest;
      && |b| >= HEADER && LengthAt(b) == |r.name| && |Encode(r)| == HEADER + |r.name|
      && RecordAt(b) == r && b[HEADER + |r.name|..] == rest
  {
    var b := Encode(r) + rest;
    assert b[..4] == Word(Unsigned(r.wd));
    assert b[4..8] == Word(r.mask);
    assert b[8..12] == Word(r.cookie);
    assert b[12..16] == Word(|r.name|);
    WordRoundTrip(Unsigned(r.wd));
    WordRoundTrip(r.mask);
    WordRoundTrip(r.cookie);
    WordRoundTrip(|r.name|);
    assert b[16..16 + |r.name|] == r.name;
  }

  /** Whatever the names' lengths, parsing what was serialised gives back the records, in order. */
  lemma {:induction false} ParseSerialised(rs: seq<Record>)
    requires forall r :: r in rs ==> Fits(r)
    ensures Parse(Serialise(rs)) == Some(rs)
  {
    if rs != [] {
      EncodeFields(rs[0], Serialise(rs[1..]));
      ParseSerialised(rs[1..]);
      assert rs == [rs[0]] + rs[1..];
    }
  }

  lemma EncodeRecordAt(b: seq<Byte>)
    requires |b| >= HEADER && |b| >= HEADER + LengthAt(b)
    ensures Fits(RecordAt(b)) && Encode(RecordAt(b)) == b[..HEADER + LengthAt(b)]
  {
    var r, n := RecordAt(b), HEADER + LengthAt(b);
    FromWordRoundTrip(b[..4]);
    FromWordRoundTrip(b[4..8]);
    FromWordRoundTrip(b[8..12]);
    FromWordRoundTrip(b[12..16]);
    assert Unsigned(r.wd) == FromWord(b[..4]);
    assert b[..n] == b[..4] + b[4..8] + b[8..12] + b[12..16] + b[16..n];
  }

  /** And only serialised records parse: what the parser accepts is the buffer its result serialises to. */
  lemma {:induction false} SerialiseParsed(b: seq<Byte>)
    requires Parse(b).Some?
    ensures forall r :: r in Parse(b).value ==> Fits(r)
    ensures Serialise(Parse(b).value) == b
    decreases |b|
  {
    if b != [] {
      var r, n := RecordAt(b), HEADER + LengthAt(b);
      SerialiseParsed(b[n..]);
      EncodeRecordAt(b);
      assert b == b[..n] + b[n..];
      var rs := Parse(b).value;
      assert rs[0] == r && rs[1..] == Parse(b[n..]).value;
    }
  }

  /** The number in four bytes, the least significant first. */
  ghost predicate Holds(b: seq<Byte>, at: nat, x: int) {
    && at + 4 <= |b|
    && x == (b[at] as int) + 0x100 * (b[at + 1] as int) + 0x1_0000 * (b[at + 2] as int)
            + 0x100_0000 * (b[at + 3] as int)
  }

  /** Where the fields of the first record are: descriptor, mask, cookie and length in words, and then the name. The
      next record follows it. */
  lemma FirstRecord(b: seq<Byte>, wd: int, mask: int, cookie: int, length: nat)
    requires Holds(b, 0, wd) && Holds(b, 4, mask) && Holds(b, 8, cookie) && Holds(b, 12, length)
    requires |b| >= 16 + length && Parse(b[16 + length..]).Some?
    ensures
      && Parse(b).Some? && Parse(b).value != [] && Parse(b).value[1..] == Parse(b[16 + length..]).value
      && var r := Parse(b).value[0];
        && r.wd == (if wd < 0x8000_0000 then wd else wd - 0x1_0000_0000)
        && r.mask == mask && r.cookie == cookie && r.name == b[16..16 + length]
  {
    WordAt(b, 0, wd);
    WordAt(b, 4, mask);
    WordAt(b, 8, cookie);
    WordAt(b, 12, length);
    FirstParsed(b, length);
  }

  lemma FirstParsed(b: seq<Byte>, length: nat)
    requires |b| >= 16 + length && LengthAt(b) == length && Parse(b[16 + length..]).Some?
    ensures Parse(b) == Some([RecordAt(b)] + Parse(b[16 + length..]).value)
  {
  }

  lemma WordAt(b: seq<Byte>, at: nat, x: int)
    requires Holds(b, at, x)
    ensures FromWord(b[at..at + 4]) == x
  {
    var w := b[at..at + 4];
    assert w[0] == b[at] && w[1] == b[at + 1] && w[2] == b[at + 2] && w[3] == b[at + 3];
  }

  /** The name as a C string: up to the first zero byte. */
  function CName(name: seq<Byte>): string {
    if name == [] || name[0] == 0 then "" else [name[0] as char] + CName(name[1..])
  }
}
