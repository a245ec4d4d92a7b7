/** Double-buffered playback of 8-bit mono sound. */
module Sound {
  import opened Entries
  import opened Wave

  const HALF := 0x1000      // bytes of one half of the buffer
  const PAGE := 0x1_0000    // memory that the device can reach; the buffer comes first in it
  const SILENCE: Byte := 0x80

  /** What the sound device is doing: one half after the other, the last one of these, or a single block. */
  datatype Device = Idle | Auto(at: nat) | Ending(at: nat) | Single(start: nat, count: nat)

  /** Playback: the page with the buffer, the place in the file, bytes not read, samples not played, the half to fill
      next, and, on the device's side, what it is doing and what it has played. */
  datatype Play = Play(buffer: seq<Byte>, pos: nat, unread: int, left: int, half: nat, playing: bool,
                       device: Device, played: seq<Byte>)

  function Other(half: nat): nat { if half == 0 then 1 else 0 }

  /** Both halves are there, and what is to be read is in the file. */
  predicate Sane(p: Play, file: seq<Byte>) {
    && |p.buffer| == PAGE && p.half < 2 && p.unread >= 0 && p.pos + p.unread <= |file|
    && match p.device
      case Idle => true
      case Auto(at) => at < 2
      case Ending(at) => at < 2
      case Single(start, count) => start + count <= PAGE
  }

  function HalfOf(buffer: seq<Byte>, half: nat): (r: seq<Byte>)
    requires |buffer| == PAGE && half < 2
    ensures |r| == HALF
  {
    buffer[half * HALF..half * HALF + HALF]
  }

  /** The page with one half of the buffer replaced. */
  function WithHalf(buffer: seq<Byte>, half: nat, bytes: seq<Byte>): (r: seq<Byte>)
    requires |buffer| == PAGE && half < 2 && |bytes| == HALF
    ensures |r| == PAGE && HalfOf(r, half) == bytes && HalfOf(r, Other(half)) == HalfOf(buffer, Other(half))
  {
    buffer[..half * HALF] + bytes + buffer[half * HALF + HALF..]
  }

  /** The next bytes of the file, filled up with silence at its end. */
  function NextHalf(p: Play, file: seq<Byte>): (bytes: seq<Byte>)
    requires Sane(p, file)
    ensures |bytes| == HALF
  {
    var n := Min(HALF, p.unread);
    file[p.pos..p.pos + n] + seq(HALF - n, _ => SILENCE)
  }

  /** One half loaded from the file, if there is anything left. */
  function Loaded(p: Play, file: seq<Byte>, half: nat): (q: Play)
    requires Sane(p, file) && half < 2
    ensures Sane(q, file) && q.pos + q.unread == p.pos + p.unread
  {
    if p.unread <= 0 then p
    else p.(buffer := WithHalf(p.buffer, half, NextHalf(p, file)),
      pos := p.pos + Min(HALF, p.unread), unread := p.unread - Min(HALF, p.unread))
  }

  /** The device told to play what is left, from the half to fill next on. It counts down from one less,
      in 16 bits: when nothing is left, a whole page. */
  function SingleCycle(p: Play): Play {
    p.(device := Single(p.half * HALF, (p.left - 1) % PAGE + 1), left := 0)
  }

  /** Playback after the interrupt routine. */
  function Handled(p: Play, file: seq<Byte>): (q: Play)
    requires Sane(p, file)
    ensures Sane(q, file) && q.pos + q.unread == p.pos + p.unread
  {
    if !p.playing then p
    else
      var p := p.(left := p.left - HALF);
      if p.left <= 0 then p.(playing := false)
      else
        var p := Loaded(p, file, p.half);
        if p.left <= HALF then
          var p := SingleCycle(p.(half := Other(p.half)));
          p.(half := Other(p.half))
        else if p.left <= 2 * HALF && p.device.Auto? then
          p.(device := Ending(p.device.at), half := Other(p.half))
        else
          p.(half := Other(p.half))
  }

  /** The device comes to the end of a block. */
  function BlockEnd(p: Play): Play
    requires |p.buffer| == PAGE
    requires match p.device
      case Idle => true
      case Auto(at) => at < 2
      case Ending(at) => at < 2
      case Single(start, count) => start + count <= PAGE
  {
    match p.device
    case Idle => p
    case Auto(at) => p.(played := p.played + p.buffer[at * HALF..at * HALF + HALF], device := Auto(Other(at)))
    case Ending(at) => p.(played := p.played + p.buffer[at * HALF..at * HALF + HALF], device := Idle)
    case Single(start, count) => p.(played := p.played + p.buffer[start..start + count], device := Idle)
  }

  /** Playback when it starts: both halves read, and the device under way. */
  function Begun(buffer: seq<Byte>, file: seq<Byte>, start: nat, count: nat): (q: Play)
    requires |buffer| == PAGE && start + count <= |file|
    ensures Sane(q, file) && q.pos + q.unread == start + count
  {
    var p := Play(buffer, start, count, count, 0, true, Idle, []);
    var p := Loaded(Loaded(p, file, 0), file, 1);
    if p.unread > 0 then p.(device := Auto(0)) else SingleCycle(p)
  }

  // ----- what holds between interrupts -----

  /** Segment `j` of the data: half a buffer of it, or what is left. */
  function Segment(file: seq<Byte>, start: nat, count: nat, j: nat): (s: seq<Byte>)
    requires start + count <= |file|
    ensures |s| <= HALF
  {
    if j * HALF < count then file[start + j * HALF..start + Min(count, (j + 1) * HALF)] else []
  }

  /** Half `half` begins with segment `j`. */
  predicate Holding(buffer: seq<Byte>, half: nat, file: seq<Byte>, start: nat, count: nat, j: nat)
    requires |buffer| == PAGE && half < 2 && start + count <= |file|
  {
    Segment(file, start, count, j) <= HalfOf(buffer, half)
  }

  /** After `j` interrupts: segments before `j` are played, segment `j` is being played, the next one is
      in the other half, and the device will play no more halves than there are. */
  predicate Phase(p: Play, file: seq<Byte>, start: nat, count: nat, j: nat) {
    && start + count <= |file| && j * HALF < count && 2 * HALF < count
    && Sane(p, file) && p.playing
    && p.played == file[start..start + j * HALF]
    && Holding(p.buffer, j % 2, file, start, count, j)
    && p.pos == start + Min(count, (j + 2) * HALF) && p.pos + p.unread == start + count
    && var left := count - j * HALF;
      if left <= HALF then p.device == Single(j % 2 * HALF, left) && p.left == 0
      else
        && p.left == left && p.half == j % 2 && Holding(p.buffer, (j + 1) % 2, file, start, count, j + 1)
        && p.device == if left <= 2 * HALF then Ending(j % 2) else Auto(j % 2)
  }

  lemma LoadedHolds(p: Play, file: seq<Byte>, start: nat, count: nat, half: nat, i: nat)
    requires Sane(p, file) && half < 2 && start + count <= |file|
    requires p.pos == start + Min(count, i * HALF) && p.pos + p.unread == start + count
    ensures Holding(Loaded(p, file, half).buffer, half, file, start, count, i)
    ensures Loaded(p, file, half).pos == start + Min(count, (i + 1) * HALF)
    ensures HalfOf(Loaded(p, file, half).buffer, Other(half)) == HalfOf(p.buffer, Other(half))
  {
    hide HalfOf, WithHalf;
    if i * HALF < count {
      var n := Min(HALF, p.unread);
      assert NextHalf(p, file)[..n] == file[p.pos..p.pos + n];
      assert Segment(file, start, count, i) == file[p.pos..p.pos + n];
    }
  }

  lemma BeginsPhase(buffer: seq<Byte>, file: seq<Byte>, start: nat, count: nat)
    requires |buffer| == PAGE && start + count <= |file| && 2 * HALF < count
    ensures Phase(Begun(buffer, file, start, count), file, start, count, 0)
  {
    hide HalfOf, WithHalf, NextHalf, Segment;
    var p := Play(buffer, start, count, count, 0, true, Idle, []);
    LoadedHolds(p, file, start, count, 0, 0);
    LoadedHolds(Loaded(p, file, 0), file, start, count, 1, 1);
  }

  // ----- one interrupt -----

  function Interrupted(p: Play, file: seq<Byte>): (q: Play)
    requires Sane(p, file)
    ensures Sane(q, file) && q.pos + q.unread == p.pos + p.unread
  {
    Handled(BlockEnd(p), file)
  }

  /** The half that the interrupt routine fills is not the one the device has gone on to play. */
  lemma RefillsOther(p: Play, file: seq<Byte>, start: nat, count: nat, j: nat)
    requires Phase(p, file, start, count, j)
    ensures var q := BlockEnd(p);
      match q.device
      case Auto(at) => at != q.half
      case Ending(at) => false
      case Single(_, _) => false
      case Idle => q.unread == 0
  {}

  lemma SegmentNext(file: seq<Byte>, start: nat, count: nat, j: nat)
    requires start + count <= |file| && j * HALF < count
    ensures file[start..start + j * HALF] + Segment(file, start, count, j)
      == file[start..start + Min(count, (j + 1) * HALF)]
    ensures |Segment(file, start, count, j)| == Min(HALF, count - j * HALF)
  {}

  lemma HalfAt(buffer: seq<Byte>, half: nat, n: nat)
    requires |buffer| == PAGE && half < 2 && n <= HALF
    ensures buffer[half * HALF..half * HALF + n] == HalfOf(buffer, half)[..n]
  {}

  /** What a block adds to what was played. */
  lemma BlockPlayed(p: Play, file: seq<Byte>, start: nat, count: nat, j: nat)
    requires Phase(p, file, start, count, j)
    ensures BlockEnd(p).played == file[start..start + Min(count, (j + 1) * HALF)]
  {
    hide HalfOf, Segment;
    SegmentNext(file, start, count, j);
    HalfAt(p.buffer, j % 2, Min(HALF, count - j * HALF));
  }

  /** The state of a player while the routine runs: the device has gone on, and the half it left is free. */
  lemma HandledNext(q: Play, file: seq<Byte>, start: nat, count: nat, j: nat)
    requires Sane(q, file) && q.playing && start + count <= |file| && 2 * HALF < count && j * HALF < count
    requires q.left == count - (j - 1) * HALF && j > 0 && q.half == Other(j % 2)
    requires q.pos == start + Min(count, (j + 1) * HALF) && q.pos + q.unread == start + count
    requires q.played == file[start..start + j * HALF] && Holding(q.buffer, j % 2, file, start, count, j)
    requires if count - (j - 1) * HALF <= 2 * HALF then q.device == Idle else q.device == Auto(j % 2)
    ensures Phase(Handled(q, file), file, start, count, j)
  {
    hide HalfOf, WithHalf, NextHalf, Segment;
    LoadedHolds(q.(left := q.left - HALF), file, start, count, q.half, j + 1);
    OtherHalf(j);
  }

  lemma OtherHalf(j: nat)
    ensures Other(j % 2) == (j + 1) % 2 && Other(Other(j % 2)) == j % 2 < 2
  {}

  lemma NextPhase(p: Play, file: seq<Byte>, start: nat, count: nat, j: nat)
    requires Phase(p, file, start, count, j) && (j + 1) * HALF < count
    ensures Phase(Interrupted(p, file), file, start, count, j + 1)
  {
    hide HalfOf, WithHalf, NextHalf, Segment, Handled;
    BlockPlayed(p, file, start, count, j);
    OtherHalf(j);
    OtherHalf(j + 1);
    HandledNext(BlockEnd(p), file, start, count, j + 1);
  }

  lemma LastPhase(p: Play, file: seq<Byte>, start: nat, count: nat, j: nat)
    requires Phase(p, file, start, count, j) && (j + 1) * HALF >= count
    ensures var q := Interrupted(p, file);
      !q.playing && q.device.Idle? && q.played == file[start..start + count] && q.pos + q.unread == start + count
  {
    BlockPlayed(p, file, start, count, j);
  }

  // ----- whole playbacks -----

  /** Playback after `k` interrupts. */
  function After(p: Play, file: seq<Byte>, k: nat): (q: Play)
    requires Sane(p, file)
    ensures Sane(q, file) && q.pos + q.unread == p.pos + p.unread
  {
    if k == 0 then p else Interrupted(After(p, file, k - 1), file)
  }

  /** Interrupts until the end: one per half that has data, or a single one when all fits the buffer. */
  function Interrupts(count: nat): nat {
    if count <= 2 * HALF then 1 else (count + HALF - 1) / HALF
  }

  lemma {:induction false} Phases(buffer: seq<Byte>, file: seq<Byte>, start: nat, count: nat, k: nat)
    requires |buffer| == PAGE && start + count <= |file| && 2 * HALF < count && k * HALF < count
    ensures Phase(After(Begun(buffer, file, start, count), file, k), file, start, count, k)
  {
    hide Phase, Begun, Interrupted;
    if k == 0 {
      BeginsPhase(buffer, file, start, count);
    } else {
      Phases(buffer, file, start, count, k - 1);
      NextPhase(After(Begun(buffer, file, start, count), file, k - 1), file, start, count, k - 1);
    }
  }

  lemma ShortPlay(buffer: seq<Byte>, file: seq<Byte>, start: nat, count: nat)
    requires |buffer| == PAGE && start + count <= |file| && 0 < count <= 2 * HALF
    ensures Begun(buffer, file, start, count).playing
    ensures var q := Interrupted(Begun(buffer, file, start, count), file);
      !q.playing && q.device.Idle? && q.played == file[start..start + count]
  {
    hide NextHalf, WithHalf, Segment, HalfOf;
    var p := Play(buffer, start, count, count, 0, true, Idle, []);
    LoadedHolds(p, file, start, count, 0, 0);
    LoadedHolds(Loaded(p, file, 0), file, start, count, 1, 1);
    BothHalves(Loaded(Loaded(p, file, 0), file, 1).buffer, file, start, count);
  }

  lemma BothHalves(buffer: seq<Byte>, file: seq<Byte>, start: nat, count: nat)
    requires |buffer| == PAGE && start + count <= |file| && 0 < count <= 2 * HALF
    requires Holding(buffer, 0, file, start, count, 0) && Holding(buffer, 1, file, start, count, 1)
    ensures buffer[0..count] == file[start..start + count]
  {
    SegmentNext(file, start, count, 0);
    if count > HALF { SegmentNext(file, start, count, 1); }
    hide Segment;
    assert buffer[..2 * HALF] == HalfOf(buffer, 0) + HalfOf(buffer, 1);
  }

  /** When there is nothing to play, the device plays the page. */
  lemma EmptyPlay(buffer: seq<Byte>, file: seq<Byte>, start: nat)
    requires |buffer| == PAGE && start <= |file|
    ensures Begun(buffer, file, start, 0).playing
    ensures var q := Interrupted(Begun(buffer, file, start, 0), file);
      !q.playing && q.device.Idle? && q.played == buffer
  {
    assert (0 - 1) % PAGE + 1 == PAGE;
    assert buffer[0..PAGE] == buffer;
  }

  /** The device plays the `count` bytes of the file from `start` on, all of them and in order, and stops
      after the right number of interrupts, not before. */
  lemma PlaysAll(buffer: seq<Byte>, file: seq<Byte>, start: nat, count: nat, k: nat)
    requires |buffer| == PAGE && start + count <= |file| && k <= Interrupts(count)
    ensures var q := After(Begun(buffer, file, start, count), file, k);
      && (q.playing <==> k < Interrupts(count))
      && (k == Interrupts(count) ==>
           q.device.Idle? && q.played == if count > 0 then file[start..start + count] else buffer)
  {
    hide Begun, Interrupted;
    var p := Begun(buffer, file, start, count);
    if count <= 2 * HALF {
      if count > 0 { ShortPlay(buffer, file, start, count); } else { EmptyPlay(buffer, file, start); }
      assert After(p, file, 0) == p && After(p, file, 1) == Interrupted(After(p, file, 0), file);
    } else if k < Interrupts(count) {
      Phases(buffer, file, start, count, k);
    } else {
      Phases(buffer, file, start, count, k - 1);
      LastPhase(After(p, file, k - 1), file, start, count, k - 1);
    }
  }

  /** In every playback, whenever bytes are left to read, the half that the interrupt routine fills is
      not the one that the device is playing by then. */
  lemma FillsFreeHalf(buffer: seq<Byte>, file: seq<Byte>, start: nat, count: nat, k: nat)
    requires |buffer| == PAGE && start + count <= |file| && k < Interrupts(count)
    ensures var q := BlockEnd(After(Begun(buffer, file, start, count), file, k));
      q.unread > 0 ==> q.device.Auto? && q.device.at != q.half
  {
    if count <= 2 * HALF {
      assert After(Begun(buffer, file, start, count), file, 0) == Begun(buffer, file, start, count);
    } else {
      hide Begun, Interrupted;
      Phases(buffer, file, start, count, k);
      RefillsOther(After(Begun(buffer, file, start, count), file, k), file, start, count, k);
    }
  }

  // ----- what a WAV file sounds like -----

  /** Eight bits and one channel, and the data chunk lies in the file. */
  predicate Playable(file: File, clip: Clip) {
    clip.bits == 8 && clip.channels == 1 && clip.header + DATA_SIZE + clip.count <= |file|
  }

  /** The data: what follows the header of the data chunk. */
  function Data(file: File, clip: Clip): seq<Byte>
    requires Playable(file, clip)
  {
    file[clip.header + DATA_SIZE..clip.header + DATA_SIZE + clip.count]
  }

  /** The bytes repeat the eight of the header before them over and over. */
  predicate RepeatsHeader(file: File, clip: Clip)
    requires Playable(file, clip)
  {
    forall i :: 0 <= i < clip.count ==> file[clip.header + DATA_SIZE + i] == file[clip.header + i % DATA_SIZE]
  }

  lemma {:induction false} ShiftedAt(file: File, clip: Clip, i: nat)
    requires Playable(file, clip) && i < clip.count
    requires file[clip.header..clip.header + clip.count] == Data(file, clip)
    ensures file[clip.header + DATA_SIZE + i] == file[clip.header + i % DATA_SIZE]
  {
    assert file[clip.header..clip.header + clip.count][i] == Data(file, clip)[i];
    if i >= DATA_SIZE {
      assert (i - DATA_SIZE) % DATA_SIZE == i % DATA_SIZE;
      ShiftedAt(file, clip, i - DATA_SIZE);
    }
  }

  /** Eight bytes too early is right exactly for data that repeats its own header. */
  lemma Shifted(file: File, clip: Clip)
    requires Playable(file, clip)
    ensures file[clip.header..clip.header + clip.count] == Data(file, clip) <==> RepeatsHeader(file, clip)
  {
    var early, data := file[clip.header..clip.header + clip.count], Data(file, clip);
    if early == data {
      forall i | 0 <= i < clip.count ensures file[clip.header + DATA_SIZE + i] == file[clip.header + i % DATA_SIZE] {
        ShiftedAt(file, clip, i);
      }
    }
    if RepeatsHeader(file, clip) {
      forall i | 0 <= i < clip.count ensures early[i] == data[i] {
        if i >= DATA_SIZE { assert i % DATA_SIZE == (i - DATA_SIZE) % DATA_SIZE; }
      }
    }
  }

  /** Playback of a file starts with the eight bytes of the header of its data chunk and lacks the last eight
      bytes of the data. The data is played if and only if it repeats that header; when it is empty, the buffer
      and all memory of the page behind it are played instead. */
  lemma PlaysData(page: seq<Byte>, file: File)
    requires |page| == PAGE && Readable(file) && Parsed(file).Ok? && Playable(file, Parsed(file).value)
    ensures var clip := Parsed(file).value;
      var q := After(Begun(page, file, clip.header, clip.count), file, Interrupts(clip.count));
      && !q.playing
      && (clip.count > 0 ==> q.played == file[clip.header..clip.header + clip.count])
      && (clip.count > 0 ==> (q.played == Data(file, clip) <==> RepeatsHeader(file, clip)))
      && (clip.count == 0 ==> q.played == page && q.played != Data(file, clip))
  {
    var clip := Parsed(file).value;
    hide Begun, After, Interrupted;
    PlaysAll(page, file, clip.header, clip.count, Interrupts(clip.count));
    Shifted(file, clip);
  }

  /** Text of three headers, the symbols by their codes. */
  function SampleByte(i: nat): Byte {
    match i
    case 0 => 0x52 case 1 => 0x49 case 2 => 0x46 case 3 => 0x46 case 4 => 37
    case 8 => 0x57 case 9 => 0x41 case 10 => 0x56 case 11 => 0x45
    case 12 => 0x66 case 13 => 0x6D case 14 => 0x74 case 15 => 0x20 case 16 => 16
    case 20 => 1 case 22 => 1 case 24 => 0x40 case 25 => 0x1F case 28 => 0x40 case 29 => 0x1F case 32 => 1 case 34 => 8
    case 36 => 0x64 case 37 => 0x61 case 38 => 0x74 case 39 => 0x61 case 40 => 1
    case 44 => 0xFF
    case _ => 0
  }

  /** A file with a single sample. */
  function OneSample(): (file: File)
    ensures |file| == 45
  {
    seq(45, i requires i >= 0 => SampleByte(i))
  }

  lemma SampleWord(at: nat, a: Byte, b: Byte, c: Byte, d: Byte)
    requires at + 4 <= 45
    requires SampleByte(at) == a && SampleByte(at + 1) == b && SampleByte(at + 2) == c && SampleByte(at + 3) == d
    ensures Half(OneSample(), at) == a + 0x100 * b
    ensures Word(OneSample(), at) == a + 0x100 * b + 0x1_0000 * (c + 0x100 * d)
  {
    hide SampleByte;
  }

  lemma SampleWords()
    ensures var file := OneSample();
      && Word(file, 0) == RIFF && Word(file, 8) == WAVE && Word(file, 12) == FMT && Word(file, 16) == 16
      && Half(file, 22) == 1 && Word(file, 24) == 8000 && Half(file, 34) == 8
      && Word(file, 36) == DATA && Word(file, 40) == 1 && file[36] == 0x64 && file[44] == 0xFF
  {
    hide Word, Half;
    SampleWord(0, 0x52, 0x49, 0x46, 0x46);
    SampleWord(8, 0x57, 0x41, 0x56, 0x45);
    SampleWord(12, 0x66, 0x6D, 0x74, 0x20);
    SampleWord(16, 16, 0, 0, 0);
    SampleWord(22, 1, 0, 0x40, 0x1F);
    SampleWord(24, 0x40, 0x1F, 0, 0);
    SampleWord(34, 8, 0, 0x64, 0x61);
    SampleWord(36, 0x64, 0x61, 0x74, 0x61);
    SampleWord(40, 1, 0, 0, 0);
  }

  lemma SampleParsed()
    ensures Readable(OneSample()) && Parsed(OneSample()) == Ok(Clip(36, 1, 8, 1, 8000))
  {
    hide OneSample, Word, Half;
    var file := OneSample();
    SampleWords();
    assert Pos(file, FMT_SIZE, RIFF_SIZE, 0) == RIFF_SIZE && EndsAt(file, FMT_SIZE, FMT, RIFF_SIZE, 0);
    ChunkIs(file, FMT_SIZE, FMT, RIFF_SIZE, 0);
    assert Next(file, RIFF_SIZE) == 36;
    assert Pos(file, DATA_SIZE, 36, 0) == 36 && EndsAt(file, DATA_SIZE, DATA, 36, 0);
    ChunkIs(file, DATA_SIZE, DATA, 36, 0);
  }

  /** It is not played: the first symbol of the tag is. */
  lemma OneSampleLost(page: seq<Byte>)
    requires |page| == PAGE
    ensures Readable(OneSample()) && Parsed(OneSample()) == Ok(Clip(36, 1, 8, 1, 8000))
    ensures var q := After(Begun(page, OneSample(), 36, 1), OneSample(), Interrupts(1));
      !q.playing && q.played == [0x64] && Data(OneSample(), Clip(36, 1, 8, 1, 8000)) == [0xFF]
  {
    hide OneSample, Begun, After, Interrupted, Readable, Parsed;
    SampleWords();
    SampleParsed();
    PlaysAll(page, OneSample(), 36, 1, Interrupts(1));
  }

  // ----- the driver -----

  /** The page with zeros in its buffer. */
  function Cleared(page: seq<Byte>): seq<Byte>
    requires |page| == PAGE
  {
    seq(2 * HALF, _ => 0) + page[2 * HALF..]
  }

  class Driver {
    const buffer: array<Byte>
    var pos: nat
    var unread: int
    var left: int
    var half: nat
    var playing: bool
    var device: Device
    ghost var played: seq<Byte>

    /** All of the driver's state, and the device's. */
    ghost function View(): Play
      reads this, buffer
    {
      Play(buffer[..], pos, unread, left, half, playing, device, played)
    }

    constructor ()
      ensures fresh(buffer) && buffer.Length == PAGE
    {
      buffer := new Byte[PAGE];
      pos, unread, left, half, playing, device := 0, 0, 0, 0, false, Idle;
      played := [];
    }

    /** Loads one half of the buffer from the file. */
    method ReadBuffer(file: seq<Byte>, index: nat)
      requires Sane(View(), file) && index < 2
      modifies this, buffer
      ensures View() == Loaded(old(View()), file, index)
      ensures old(unread) > 0 ==> forall i :: 0 <= i < 2 * 0x1000 ==>
        buffer[i] == if i / 0x1000 != index then old(buffer[i])
          else if i % 0x1000 < old(unread) then file[old(pos) + i % 0x1000] else 0x80
    {
      hide WithHalf, NextHalf;
      if unread <= 0 { return; }
      ghost var before := buffer[..];
      var n := HALF;
      if unread < HALF {
        // Silence behind the end of the data
        Fill(index, seq(HALF, _ => SILENCE));
        n := unread;
      }
      Fill(index, file[pos..pos + n]);
      FilledHalf(before, buffer[..], View(), file, index);
      pos := pos + n;
      unread := unread - n;
    }

    /** Puts bytes at the beginning of a half. */
    method Fill(index: nat, bytes: seq<Byte>)
      requires buffer.Length == PAGE && index < 2 && |bytes| <= HALF
      modifies buffer
      ensures forall i :: 0 <= i < PAGE ==>
        buffer[i] == if index * HALF <= i < index * HALF + |bytes| then bytes[i - index * HALF] else old(buffer[i])
    {
      var i := 0;
      while i < |bytes|
        invariant 0 <= i <= |bytes|
        invariant forall x :: 0 <= x < PAGE ==>
          buffer[x] == if index * HALF <= x < index * HALF + i then bytes[x - index * HALF] else old(buffer[x])
      {
        buffer[index * HALF + i] := bytes[i];
        i := i + 1;
      }
    }

    /** Has the device play a single block. */
    method StartSingle()
      modifies this
      ensures View() == SingleCycle(old(View()))
    {
      left := left - 1;
      device := Single(half * HALF, left % PAGE + 1);
      left := 0;
    }

    /** Starts playback of `count` bytes of the file. */
    method Start(file: seq<Byte>, start: nat, count: nat)
      requires buffer.Length == PAGE && start + count <= |file|
      modifies this, buffer
      ensures View() == Begun(Cleared(old(buffer[..])), file, start, count)
    {
      ghost var page := buffer[..];
      Fill(0, seq(HALF, _ => 0));
      Fill(1, seq(HALF, _ => 0));
      assert buffer[..] == Cleared(page);
      pos, unread, left, half, playing, device := start, count, count, 0, true, Idle;
      played := [];
      ReadBuffer(file, 0);
      ReadBuffer(file, 1);
      if unread > 0 {
        device := Auto(0);
      } else {
        StartSingle();
      }
    }

    /** Plays a WAV file. The position is left at the header of the data chunk when playback starts. */
    method PlayFile(file: File) returns (r: Result<Clip>)
      requires buffer.Length == PAGE && Readable(file)
      requires Parsed(file).Ok? ==> Playable(file, Parsed(file).value)
      modifies this, buffer
      ensures r == Parsed(file)
      ensures r.Ok? ==> View() == Begun(Cleared(old(buffer[..])), file, r.value.header, r.value.count)
    {
      r := Open(file);
      if r.Ok? { Start(file, r.value.header, r.value.count); }
    }

    /** The interrupt routine. */
    method Handle(file: seq<Byte>)
      requires Sane(View(), file)
      modifies this, buffer
      ensures View() == Handled(old(View()), file)
    {
      if playing {
        left := left - HALF;
        if left > 0 {
          ReadBuffer(file, half);
          if left <= HALF {
            half := Other(half);
            StartSingle();
          } else if left <= 2 * HALF {
            if device.Auto? { device := Ending(device.at); }
          }
          half := Other(half);
        } else {
          playing := false;
        }
      }
    }
  }

  lemma FilledHalf(before: seq<Byte>, after: seq<Byte>, p: Play, file: seq<Byte>, index: nat)
    requires Sane(p, file) && index < 2 && p.unread > 0 && |before| == |after| == PAGE
    requires forall i :: 0 <= i < PAGE ==>
      after[i] == if !(index * HALF <= i < index * HALF + HALF) then before[i]
        else if i - index * HALF < p.unread then file[p.pos + (i - index * HALF)] else SILENCE
    ensures after == WithHalf(before, index, NextHalf(p.(buffer := before), file))
  {}
}
