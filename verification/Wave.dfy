/** The chunks of a WAV file, and where the driver finds the sound in it. */
module Wave {
  import opened Entries

  const WORD := 0x1_0000_0000   // positions and lengths are 32-bit words

  const RIFF := 0x4646_4952     // the four symbols of a tag, the first one in the lowest byte
  const WAVE := 0x4556_4157
  const FMT := 0x2074_6D66
  const DATA := 0x6174_6164

  const RIFF_SIZE := 12         // bytes that are read of each header
  const FMT_SIZE := 24
  const DATA_SIZE := 8

  type File = f: seq<Byte> | |f| < WORD witness []

  function Half(file: File, at: nat): nat
    requires at + 2 <= |file|
  {
    var a: int, b: int := file[at], file[at + 1];
    a + 0x100 * b
  }

  function Word(file: File, at: nat): (w: nat)
    requires at + 4 <= |file|
    ensures w < WORD
  {
    Half(file, at) + 0x1_0000 * Half(file, at + 2)
  }

  // ----- looking for a chunk -----

  /** A header of `size` bytes can be read here. */
  predicate Header(file: File, size: nat, pos: nat) { pos + size <= |file| && size >= 8 }

  predicate Tagged(file: File, size: nat, tag: nat, pos: nat) { Header(file, size, pos) && Word(file, pos) == tag }

  /** The position behind the chunk at `pos`, in 32 bits. */
  function Next(file: File, pos: nat): nat
    requires pos + 8 <= |file|
  {
    (pos + Word(file, pos + 4) + 8) % WORD
  }

  /** Where the search stands after `k` chunks. */
  ghost function Pos(file: File, size: nat, pos: nat, k: nat): nat {
    if k == 0 then pos
    else
      var p := Pos(file, size, pos, k - 1);
      if Header(file, size, p) then Next(file, p) else p
  }

  /** None of the first `k` chunks ends the search. */
  ghost predicate Passed(file: File, size: nat, tag: nat, pos: nat, k: nat) {
    forall j: nat :: j < k ==>
      Header(file, size, Pos(file, size, pos, j)) && !Tagged(file, size, tag, Pos(file, size, pos, j))
  }

  /** The search ends at the `k`-th chunk: it has the tag, or its header cannot be read. */
  ghost predicate EndsAt(file: File, size: nat, tag: nat, pos: nat, k: nat) {
    && Passed(file, size, tag, pos, k)
    && (Tagged(file, size, tag, Pos(file, size, pos, k)) || !Header(file, size, Pos(file, size, pos, k)))
  }

  /** The search ends at all. A length close to the largest word sends it back. */
  ghost predicate Ends(file: File, size: nat, tag: nat, pos: nat) {
    exists k :: EndsAt(file, size, tag, pos, k)
  }

  lemma EndsOnce(file: File, size: nat, tag: nat, pos: nat, j: nat, k: nat)
    requires EndsAt(file, size, tag, pos, j) && EndsAt(file, size, tag, pos, k)
    ensures j == k
  {}

  datatype Option<T> = None | Some(value: T)

  /** The first chunk with the tag from `pos` on, if there is one. */
  ghost function Chunk(file: File, size: nat, tag: nat, pos: nat): (r: Option<nat>)
    requires Ends(file, size, tag, pos)
    ensures r.Some? ==> Tagged(file, size, tag, r.value)
  {
    var k :| EndsAt(file, size, tag, pos, k);
    var p := Pos(file, size, pos, k);
    if Header(file, size, p) then Some(p) else None
  }

  lemma ChunkIs(file: File, size: nat, tag: nat, pos: nat, k: nat)
    requires EndsAt(file, size, tag, pos, k)
    ensures var p := Pos(file, size, pos, k);
      Chunk(file, size, tag, pos) == if Header(file, size, p) then Some(p) else None
  {
    var j :| EndsAt(file, size, tag, pos, j) && Chunk(file, size, tag, pos)
      == if Header(file, size, Pos(file, size, pos, j)) then Some(Pos(file, size, pos, j)) else None;
    EndsOnce(file, size, tag, pos, j, k);
  }

  /** Looks for a chunk, header by header. */
  method Find(file: File, size: nat, tag: nat, start: nat) returns (r: Option<nat>)
    requires size >= 8 && start < WORD && Ends(file, size, tag, start)
    ensures r == Chunk(file, size, tag, start)
  {
    ghost var k: nat :| EndsAt(file, size, tag, start, k);
    ghost var j: nat := 0;
    var pos := start;
    while true
      invariant j <= k && pos == Pos(file, size, start, j)
      decreases k - j
    {
      if pos + size > |file| {
        assert j == k;
        ChunkIs(file, size, tag, start, k);
        return None;
      }
      if Word(file, pos) == tag {
        assert j == k;
        ChunkIs(file, size, tag, start, k);
        return Some(pos);
      }
      pos := Next(file, pos);
      j := j + 1;
    }
  }

  /** As long as no length sends it back the search ends. */
  lemma {:induction false} Onward(file: File, size: nat, tag: nat, pos: nat, k: nat)
    requires size >= 8
    requires forall p: nat :: Header(file, 8, p) ==> p + Word(file, p + 4) + 8 < WORD
    ensures Ends(file, size, tag, pos) || (Passed(file, size, tag, pos, k) && Pos(file, size, pos, k) >= 8 * k)
  {
    hide Word, Passed, Tagged;
    if k == 0 {
      PassedNone(file, size, tag, pos);
    } else {
      Onward(file, size, tag, pos, k - 1);
      if !Ends(file, size, tag, pos) {
        PassedOne(file, size, tag, pos, k - 1);
        var p := Pos(file, size, pos, k - 1);
        assert Header(file, 8, p);
        assert p + Word(file, p + 4) + 8 < WORD;
      }
    }
  }

  lemma PassedNone(file: File, size: nat, tag: nat, pos: nat)
    ensures Passed(file, size, tag, pos, 0)
  {}

  lemma PassedOne(file: File, size: nat, tag: nat, pos: nat, k: nat)
    requires Passed(file, size, tag, pos, k) && !Ends(file, size, tag, pos)
    ensures Header(file, size, Pos(file, size, pos, k)) && Passed(file, size, tag, pos, k + 1)
  {
    hide Word, Next, Header;
    assert !EndsAt(file, size, tag, pos, k);
  }

  lemma SearchEnds(file: File, size: nat, tag: nat, pos: nat)
    requires size >= 8
    requires forall p: nat :: Header(file, 8, p) ==> p + Word(file, p + 4) + 8 < WORD
    ensures Ends(file, size, tag, pos)
  {
    Onward(file, size, tag, pos, |file|);
    if Passed(file, size, tag, pos, |file|) && Pos(file, size, pos, |file|) >= 8 * |file| {
      assert EndsAt(file, size, tag, pos, |file|);
    }
  }

  lemma {:induction false} Held(file: File, size: nat, pos: nat, k: nat)
    requires Header(file, size, pos) && Next(file, pos) == pos
    ensures Pos(file, size, pos, k) == pos
  {
    if k > 0 { Held(file, size, pos, k - 1); }
  }

  /** A chunk of another kind whose length is the largest multiple of eight in a word holds the search forever. */
  lemma NeverEnds(file: File, size: nat, tag: nat, pos: nat)
    requires Header(file, size, pos) && !Tagged(file, size, tag, pos) && Word(file, pos + 4) == WORD - 8
    ensures !Ends(file, size, tag, pos)
  {
    assert Next(file, pos) == pos;
    forall k: nat ensures !EndsAt(file, size, tag, pos, k) { Held(file, size, pos, k); }
  }

  // ----- the headers -----

  /** What the headers say: where the data chunk is, the bytes it has, and the format. */
  datatype Clip = Clip(header: nat, count: nat, bits: nat, channels: nat, rate: nat)

  predicate Starts(file: File) { |file| >= RIFF_SIZE && Word(file, 0) == RIFF && Word(file, 8) == WAVE }

  predicate Supported(bits: nat, channels: nat) { (bits == 8 || bits == 16) && (channels == 1 || channels == 2) }

  /** Every search of the headers ends. */
  ghost predicate Readable(file: File) {
    Starts(file) ==>
      && Ends(file, FMT_SIZE, FMT, RIFF_SIZE)
      && match Chunk(file, FMT_SIZE, FMT, RIFF_SIZE)
         case None => true
         case Some(f) => Supported(Half(file, f + 22), Half(file, f + 10)) ==>
           Ends(file, DATA_SIZE, DATA, Next(file, f))
  }

  /** The sound of a file. */
  ghost function Parsed(file: File): Result<Clip>
    requires Readable(file)
  {
    if !Starts(file) then Err(Io)
    else match Chunk(file, FMT_SIZE, FMT, RIFF_SIZE)
      case None => Err(Io)
      case Some(f) =>
        var bits, channels := Half(file, f + 22), Half(file, f + 10);
        if !Supported(bits, channels) then Err(Io)
        else match Chunk(file, DATA_SIZE, DATA, Next(file, f))
          case None => Err(Io)
          case Some(h) => Ok(Clip(h, Word(file, h + 4), bits, channels, Word(file, f + 12)))
  }

  /** Reads the headers. */
  method Open(file: File) returns (r: Result<Clip>)
    requires Readable(file)
    ensures r == Parsed(file)
  {
    if |file| < RIFF_SIZE || Word(file, 0) != RIFF || Word(file, 8) != WAVE { return Err(Io); }
    var f := Find(file, FMT_SIZE, FMT, RIFF_SIZE);
    if f.None? { return Err(Io); }
    var bits, channels := Half(file, f.value + 22), Half(file, f.value + 10);
    if bits != 8 && bits != 16 { return Err(Io); }
    if channels != 1 && channels != 2 { return Err(Io); }
    var h := Find(file, DATA_SIZE, DATA, Next(file, f.value));
    if h.None? { return Err(Io); }
    return Ok(Clip(h.value, Word(file, h.value + 4), bits, channels, Word(file, f.value + 12)));
  }

  // ----- files laid out byte by byte -----

  /** Numbers of two and of four bytes, the lowest byte first. */
  function Two(v: nat): seq<Byte>
    requires v < 0x1_0000
  {
    [v % 0x100, v / 0x100]
  }

  function Four(v: nat): seq<Byte>
    requires v < WORD
  {
    Two(v % 0x1_0000) + Two(v / 0x1_0000)
  }

  /** A chunk: its tag, and what follows the length. */
  datatype Part = Part(tag: seq<Byte>, body: seq<Byte>)

  predicate PartOk(p: Part) { |p.tag| == 4 && |p.body| < WORD }

  function PartBytes(p: Part): (s: seq<Byte>)
    requires PartOk(p)
    ensures |s| == 8 + |p.body|
  {
    p.tag + Four(|p.body|) + p.body
  }

  function PartsBytes(parts: seq<Part>): seq<Byte>
    requires forall p :: p in parts ==> PartOk(p)
  {
    if parts == [] then [] else PartsBytes(parts[..|parts|-1]) + PartBytes(parts[|parts|-1])
  }

  datatype Format = Format(kind: nat, channels: nat, rate: nat, speed: nat, alignment: nat, bits: nat)

  predicate FormatOk(f: Format) {
    && f.kind < 0x1_0000 && f.channels < 0x1_0000 && f.alignment < 0x1_0000 && f.bits < 0x1_0000
    && f.rate < WORD && f.speed < WORD
  }

  /** The chunk that names the format, with anything behind its fields. */
  function FormatPart(f: Format, extra: seq<Byte>): (p: Part)
    requires FormatOk(f)
    ensures |p.tag| == 4 && |p.body| == 16 + |extra|
  {
    Part([0x66, 0x6D, 0x74, 0x20],
      Two(f.kind) + Two(f.channels) + Four(f.rate) + Four(f.speed) + Two(f.alignment) + Two(f.bits) + extra)
  }

  /** Everything in front of the data chunk. */
  function Front(length: nat, before: seq<Part>, f: Format, extra: seq<Byte>, after: seq<Part>): seq<Byte>
    requires length < WORD && FormatOk(f) && |extra| < WORD - 16
    requires forall p :: p in before + after ==> PartOk(p)
  {
    [0x52, 0x49, 0x46, 0x46] + Four(length) + [0x57, 0x41, 0x56, 0x45]
    + PartsBytes(before) + PartBytes(FormatPart(f, extra)) + PartsBytes(after)
  }

  function DataHead(count: nat): (s: seq<Byte>)
    requires count < WORD
    ensures |s| == 8
  {
    [0x64, 0x61, 0x74, 0x61] + Four(count)
  }

  /** A piece of a file reads as the number it was laid out for. */
  lemma HalfAt(file: File, at: nat, v: nat)
    requires v < 0x1_0000 && at + 2 <= |file| && file[at..at + 2] == Two(v)
    ensures Half(file, at) == v
  {
    assert file[at..at + 2][0] == file[at] && file[at..at + 2][1] == file[at + 1];
  }

  lemma WordAt(file: File, at: nat, v: nat)
    requires v < WORD && at + 4 <= |file| && file[at..at + 4] == Four(v)
    ensures Word(file, at) == v
  {
    var s := file[at..at + 4];
    assert s[..2] == Two(v % 0x1_0000) && s[2..] == Two(v / 0x1_0000);
    assert file[at..at + 2] == s[..2] && file[at + 2..at + 4] == s[2..];
    HalfAt(file, at, v % 0x1_0000);
    HalfAt(file, at + 2, v / 0x1_0000);
  }

  function TagWord(tag: seq<Byte>): nat
    requires |tag| == 4
  {
    tag[0] as int + 0x100 * tag[1] as int + 0x1_0000 * (tag[2] as int + 0x100 * tag[3] as int)
  }

  /** A slice of a slice. */
  lemma SliceIn(file: seq<Byte>, at: nat, whole: seq<Byte>, i: nat, j: nat)
    requires at + |whole| <= |file| && file[at..at + |whole|] == whole && i <= j <= |whole|
    ensures file[at + i..at + j] == whole[i..j]
  {
    forall k | 0 <= k < j - i ensures file[at + i..at + j][k] == whole[i..j][k] {
      assert whole[i + k] == file[at..at + |whole|][i + k];
    }
  }

  lemma TagAt(file: File, at: nat, tag: seq<Byte>)
    requires |tag| == 4 && at + 4 <= |file| && file[at..at + 4] == tag
    ensures Word(file, at) == TagWord(tag)
  {
    var s := file[at..at + 4];
    assert s[0] == file[at] && s[1] == file[at + 1] && s[2] == file[at + 2] && s[3] == file[at + 3];
  }

  lemma TagOnce(s: seq<Byte>, t: seq<Byte>)
    requires |s| == |t| == 4 && TagWord(s) == TagWord(t)
    ensures s == t
  {
    var s2: int, s3: int, t2: int, t3: int := s[2], s[3], t[2], t[3];
    var s1: int, t1: int := s[1], t[1];
    LowFirst(s[0] as int, s1 + 0x100 * (s2 + 0x100 * s3), t[0] as int, t1 + 0x100 * (t2 + 0x100 * t3));
    LowFirst(s1, s2 + 0x100 * s3, t1, t2 + 0x100 * t3);
    LowFirst(s2, s3, t2, t3);
  }

  lemma LowFirst(a: int, b: int, a': int, b': int)
    requires 0 <= a < 0x100 && 0 <= a' < 0x100 && a + 0x100 * b == a' + 0x100 * b'
    ensures a == a' && b == b'
  {}

  /** Where chunk `k` of a row starts, seen from the first. */
  function Start(parts: seq<Part>, k: nat): nat
    requires k <= |parts|
  {
    if k == 0 then 0 else Start(parts, k - 1) + 8 + |parts[k-1].body|
  }

  /** The file has these chunks from `pos` on. */
  ghost predicate PartsAt(file: File, pos: nat, parts: seq<Part>) {
    forall k :: 0 <= k < |parts| ==> PartIn(file, pos, parts, k)
  }

  predicate PartIn(file: File, pos: nat, parts: seq<Part>, k: nat)
    requires k < |parts|
  {
    PartAt(file, pos + Start(parts, k), parts[k])
  }

  predicate PartAt(file: File, at: nat, p: Part) {
    && PartOk(p) && at + 8 + |p.body| <= |file|
    && Word(file, at) == TagWord(p.tag) && Word(file, at + 4) == |p.body|
  }

  lemma PartThere(file: File, at: nat, p: Part)
    requires PartOk(p) && at + 8 + |p.body| <= |file| && file[at..at + 8 + |p.body|] == PartBytes(p)
    ensures PartAt(file, at, p)
  {
    hide TagWord, Two, Word;
    var s := PartBytes(p);
    SliceIn(file, at, s, 0, 4);
    SliceIn(file, at, s, 4, 8);
    FourSize(|p.body|);
    assert s[0..4] == p.tag && s[4..8] == Four(|p.body|);
    TagAt(file, at, p.tag);
    WordAt(file, at + 4, |p.body|);
  }

  lemma {:induction false} StartsSame(parts: seq<Part>, k: nat)
    requires k < |parts|
    ensures Start(parts[..|parts|-1], k) == Start(parts, k)
  {
    if k > 0 { StartsSame(parts, k - 1); }
  }

  lemma {:induction false} PartsHalves(file: File, pos: nat, parts: seq<Part>)
    requires parts != [] && forall p :: p in parts ==> PartOk(p)
    requires pos + |PartsBytes(parts)| <= |file| && file[pos..pos + |PartsBytes(parts)|] == PartsBytes(parts)
    ensures var n := |parts| - 1;
      var mid := pos + |PartsBytes(parts[..n])|;
      && mid + |PartBytes(parts[n])| == pos + |PartsBytes(parts)|
      && file[pos..mid] == PartsBytes(parts[..n])
      && file[mid..mid + |PartBytes(parts[n])|] == PartBytes(parts[n])
  {
    hide PartBytes, PartOk;
    var n := |parts| - 1;
    assert PartsBytes(parts) == PartsBytes(parts[..n]) + PartBytes(parts[n]);
    hide PartsBytes;
    Halves(file, pos, PartsBytes(parts[..n]), PartBytes(parts[n]));
  }

  lemma Halves(file: File, pos: nat, a: seq<Byte>, b: seq<Byte>)
    requires pos + |a| + |b| <= |file| && file[pos..pos + |a| + |b|] == a + b
    ensures file[pos..pos + |a|] == a && file[pos + |a|..pos + |a| + |b|] == b
  {
    assert (a + b)[0..|a|] == a && (a + b)[|a|..|a + b|] == b;
    SliceIn(file, pos, a + b, 0, |a|);
    SliceIn(file, pos, a + b, |a|, |a| + |b|);
  }

  lemma {:induction false} PartsThere(file: File, pos: nat, parts: seq<Part>)
    requires forall p :: p in parts ==> PartOk(p)
    requires pos + |PartsBytes(parts)| <= |file| && file[pos..pos + |PartsBytes(parts)|] == PartsBytes(parts)
    ensures PartsAt(file, pos, parts) && |PartsBytes(parts)| == Start(parts, |parts|)
    decreases |parts|
  {
    hide PartAt, PartBytes, PartOk, PartIn;
    if parts != [] {
      var n := |parts| - 1;
      assert parts[n] in parts;
      PartsHalves(file, pos, parts);
      PartsThere(file, pos, parts[..n]);
      StartsSame(parts, n);
      PartThere(file, pos + |PartsBytes(parts[..n])|, parts[n]);
      PartLast(file, pos, parts);
      forall k | 0 <= k < |parts| ensures PartIn(file, pos, parts, k) {
        if k < n { PartStays(file, pos, parts, k); }
      }
    }
  }

  lemma PartLast(file: File, pos: nat, parts: seq<Part>)
    requires parts != [] && PartAt(file, pos + Start(parts, |parts| - 1), parts[|parts|-1])
    ensures PartIn(file, pos, parts, |parts| - 1)
  {}

  lemma PartStays(file: File, pos: nat, parts: seq<Part>, k: nat)
    requires k + 1 < |parts| && PartIn(file, pos, parts[..|parts|-1], k)
    ensures PartIn(file, pos, parts, k)
  {
    StartsSame(parts, k);
  }

  predicate NoneTagged(parts: seq<Part>, tag: seq<Byte>) { forall p :: p in parts ==> p.tag != tag }

  /** The search passes them all when none has the tag and enough of the file follows. */
  lemma {:induction false} Passes(file: File, size: nat, tag: seq<Byte>, pos: nat, parts: seq<Part>, k: nat)
    requires PartsAt(file, pos, parts) && k <= |parts| && |tag| == 4 && size >= 8
    requires pos + Start(parts, |parts|) + size <= |file| && NoneTagged(parts, tag)
    ensures Pos(file, size, pos, k) == pos + Start(parts, k) && Passed(file, size, TagWord(tag), pos, k)
    ensures Start(parts, k) <= Start(parts, |parts|)
    decreases k
  {
    hide PartIn, TagWord, Tagged, Next;
    StartsGrow(parts, k, |parts|);
    if k > 0 {
      Passes(file, size, tag, pos, parts, k - 1);
      StartsGrow(parts, k - 1, |parts|);
      assert parts[k - 1] in parts;
      PartPassed(file, size, tag, pos, parts, k - 1);
    }
  }

  lemma PartPassed(file: File, size: nat, tag: seq<Byte>, pos: nat, parts: seq<Part>, k: nat)
    requires k < |parts| && PartIn(file, pos, parts, k) && |tag| == 4 && parts[k].tag != tag
    ensures var at := pos + Start(parts, k);
      && at + 8 <= |file| && Next(file, at) == pos + Start(parts, k + 1)
      && !Tagged(file, size, TagWord(tag), at)
  {
    hide TagWord, Word;
    var at := pos + Start(parts, k);
    if Word(file, at) == TagWord(tag) { TagOnce(parts[k].tag, tag); }
  }

  lemma {:induction false} StartsGrow(parts: seq<Part>, j: nat, k: nat)
    requires j <= k <= |parts|
    ensures Start(parts, j) <= Start(parts, k)
    decreases k
  {
    if j < k { StartsGrow(parts, j, k - 1); }
  }

  lemma Stops(file: File, size: nat, tag: seq<Byte>, pos: nat, parts: seq<Part>)
    requires PartsAt(file, pos, parts) && |tag| == 4 && size >= 8
    requires pos + Start(parts, |parts|) + size <= |file| && NoneTagged(parts, tag)
    requires Word(file, pos + Start(parts, |parts|)) == TagWord(tag)
    ensures Ends(file, size, TagWord(tag), pos)
    ensures Chunk(file, size, TagWord(tag), pos) == Some(pos + Start(parts, |parts|))
  {
    hide TagWord, Word, Passed, Pos, Start, NoneTagged, PartsAt;
    Passes(file, size, tag, pos, parts, |parts|);
    assert EndsAt(file, size, TagWord(tag), pos, |parts|);
    ChunkIs(file, size, TagWord(tag), pos, |parts|);
  }

  /** The fields of a format chunk at `at` read as what they were laid out for. */
  lemma FieldsRead(file: File, at: nat, f: Format, extra: seq<Byte>)
    requires FormatOk(f) && |extra| < WORD - 16 && at + 24 + |extra| <= |file|
    requires file[at..at + 24 + |extra|] == PartBytes(FormatPart(f, extra))
    ensures Half(file, at + 10) == f.channels && Word(file, at + 12) == f.rate && Half(file, at + 22) == f.bits
  {
    hide Two, Four, Half, Word;
    var s := PartBytes(FormatPart(f, extra));
    assert |Two(f.kind)| == |Two(f.channels)| == |Two(f.alignment)| == |Two(f.bits)| == 2 by { Sizes(f); }
    assert |Four(f.rate)| == |Four(f.speed)| == |Four(16 + |extra|)| == 4 by { Sizes(f); FourSize(16 + |extra|); }
    assert s[10..12] == Two(f.channels) && s[12..16] == Four(f.rate) && s[22..24] == Two(f.bits);
    SliceIn(file, at, s, 10, 12);
    SliceIn(file, at, s, 12, 16);
    SliceIn(file, at, s, 22, 24);
    HalfAt(file, at + 10, f.channels);
    WordAt(file, at + 12, f.rate);
    HalfAt(file, at + 22, f.bits);
  }

  lemma Sizes(f: Format)
    requires FormatOk(f)
    ensures |Two(f.kind)| == |Two(f.channels)| == |Two(f.alignment)| == |Two(f.bits)| == 2
    ensures |Four(f.rate)| == |Four(f.speed)| == 4
  {}

  lemma FourSize(v: nat)
    requires v < WORD
    ensures |Four(v)| == 4
  {}

  lemma Piece(file: seq<Byte>, a: seq<Byte>, b: seq<Byte>, c: seq<Byte>)
    requires file == a + b + c
    ensures |a| + |b| <= |file| && file[|a|..|a| + |b|] == b
  {}

  /** Where the pieces of a file are. */
  lemma Pieces(file: seq<Byte>, a: seq<Byte>, b: seq<Byte>, c: seq<Byte>, d: seq<Byte>, e: seq<Byte>, rest: seq<Byte>)
    requires file == a + b + c + d + e + rest
    ensures |a + b + c + d + e| <= |file| && file[0..|a|] == a && file[|a|..|a + b|] == b
    ensures file[|a + b|..|a + b + c|] == c && file[|a + b + c|..|a + b + c + d|] == d
    ensures file[|a + b + c + d|..|a + b + c + d + e|] == e
  {
    Piece(file, a + b + c + d, e, rest);
    Joined(file, a + b + c, d, e, rest);
    Piece(file, a + b + c, d, e + rest);
    Joined(file, a + b, c, d, e + rest);
    Piece(file, a + b, c, d + (e + rest));
    Joined(file, a, b, c, d + (e + rest));
    Piece(file, a, b, c + (d + (e + rest)));
    Joined(file, [], a, b, c + (d + (e + rest)));
    Piece(file, [], a, b + (c + (d + (e + rest))));
  }

  lemma Joined(file: seq<Byte>, a: seq<Byte>, b: seq<Byte>, c: seq<Byte>, d: seq<Byte>)
    requires file == a + b + c + d || (a == [] && file == b + c + d)
    ensures file == a + b + (c + d)
  {}

  lemma RiffRead(file: File, length: nat)
    requires length < WORD && |file| >= 12
    requires file[0..12] == [0x52, 0x49, 0x46, 0x46] + Four(length) + [0x57, 0x41, 0x56, 0x45]
    ensures Starts(file)
  {
    hide Four, Word;
    var s := [0x52, 0x49, 0x46, 0x46] + Four(length) + [0x57, 0x41, 0x56, 0x45];
    FourSize(length);
    SliceIn(file, 0, s, 0, 4);
    SliceIn(file, 0, s, 8, 12);
    TagAt(file, 0, [0x52, 0x49, 0x46, 0x46]);
    TagAt(file, 8, [0x57, 0x41, 0x56, 0x45]);
  }

  lemma FormatTag(f: Format, extra: seq<Byte>)
    requires FormatOk(f)
    ensures FormatPart(f, extra).tag == [0x66, 0x6D, 0x74, 0x20]
  {}

  lemma FormatFound(file: File, at: nat, before: seq<Part>, f: Format, extra: seq<Byte>)
    requires FormatOk(f) && |extra| < WORD - 16 && PartsAt(file, 12, before) && at == 12 + Start(before, |before|)
    requires NoneTagged(before, [0x66, 0x6D, 0x74, 0x20])
    requires at + 24 + |extra| <= |file| && file[at..at + 24 + |extra|] == PartBytes(FormatPart(f, extra))
    ensures Ends(file, FMT_SIZE, FMT, RIFF_SIZE) && Chunk(file, FMT_SIZE, FMT, RIFF_SIZE) == Some(at)
    ensures Next(file, at) == at + 24 + |extra|
    ensures Half(file, at + 10) == f.channels && Word(file, at + 12) == f.rate && Half(file, at + 22) == f.bits
  {
    hide PartsAt, PartBytes, Chunk, Ends, Half, Word, Start, FormatOk, Two, Four, FormatPart, NoneTagged;
    FieldsRead(file, at, f, extra);
    FormatTag(f, extra);
    PartThere(file, at, FormatPart(f, extra));
    assert TagWord([0x66, 0x6D, 0x74, 0x20]) == FMT;
    Stops(file, FMT_SIZE, [0x66, 0x6D, 0x74, 0x20], 12, before);
  }

  lemma DataFound(file: File, pos: nat, after: seq<Part>, count: nat)
    requires count < WORD && PartsAt(file, pos, after) && NoneTagged(after, [0x64, 0x61, 0x74, 0x61])
    requires var at := pos + Start(after, |after|); at + 8 <= |file| && file[at..at + 8] == DataHead(count)
    ensures var at := pos + Start(after, |after|);
      Ends(file, DATA_SIZE, DATA, pos) && Chunk(file, DATA_SIZE, DATA, pos) == Some(at) && Word(file, at + 4) == count
  {
    hide PartsAt, Chunk, Ends, Word, Start, TagWord, DataHead, NoneTagged;
    DataThere(file, pos + Start(after, |after|), count);
    Stops(file, DATA_SIZE, [0x64, 0x61, 0x74, 0x61], pos, after);
  }

  lemma DataThere(file: File, at: nat, count: nat)
    requires count < WORD && at + 8 <= |file| && file[at..at + 8] == DataHead(count)
    ensures Word(file, at) == TagWord([0x64, 0x61, 0x74, 0x61]) == DATA && Word(file, at + 4) == count
  {
    hide Word, Four;
    FourSize(count);
    assert DataHead(count)[0..4] == [0x64, 0x61, 0x74, 0x61] && DataHead(count)[4..8] == Four(count);
    SliceIn(file, at, DataHead(count), 0, 4);
    SliceIn(file, at, DataHead(count), 4, 8);
    TagAt(file, at, [0x64, 0x61, 0x74, 0x61]);
    WordAt(file, at + 4, count);
  }

  /** A file of any chunks is read as it was laid out, whatever its fields are: chunks of other kinds are passed,
      and the data chunk is found behind the first format chunk. */
  lemma LaidOutRead(file: File, length: nat, before: seq<Part>, f: Format, extra: seq<Byte>, after: seq<Part>,
                    count: nat, rest: seq<Byte>)
    requires length < WORD && FormatOk(f) && |extra| < WORD - 16 && count < WORD
    requires forall p :: p in before + after ==> PartOk(p)
    requires forall p :: p in before ==> p.tag != [0x66, 0x6D, 0x74, 0x20]
    requires forall p :: p in after ==> p.tag != [0x64, 0x61, 0x74, 0x61]
    requires file == Front(length, before, f, extra, after) + DataHead(count) + rest
    ensures Readable(file)
    ensures Parsed(file) == if (f.bits == 8 || f.bits == 16) && (f.channels == 1 || f.channels == 2)
      then Ok(Clip(|Front(length, before, f, extra, after)|, count, f.bits, f.channels, f.rate)) else Err(Io)
  {
    hide PartsBytes, PartBytes, FormatPart, DataHead, Half, Word, Four, Chunk, Ends, PartsAt, Start, FormatOk, Starts,
      Next;
    var riff := [0x52, 0x49, 0x46, 0x46] + Four(length) + [0x57, 0x41, 0x56, 0x45];
    var fmt, a, b := PartBytes(FormatPart(f, extra)), PartsBytes(before), PartsBytes(after);
    FourSize(length);
    assert |riff| == 12;
    Pieces(file, riff, a, fmt, b, DataHead(count), rest);
    RiffRead(file, length);
    PartsThere(file, 12, before);
    var at := |riff + a|;
    FormatFound(file, at, before, f, extra);
    var pos := |riff + a + fmt|;
    PartsThere(file, pos, after);
    DataFound(file, pos, after, count);
  }
}
