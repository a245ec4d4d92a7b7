/** Saving the configuration as commands, and running them again. */
module Config {
  import opened Entries

  const LINE_MAX := 72      // bytes of the line buffer
  const ARG_MAX := 5        // words of a command
  const ADDRESS_MAX := 23   // symbols of an address that are looked at
  const NUL := 0 as char

  // ----- strings in a buffer -----

  /** The string at `at`: what comes before the next zero. */
  function Str(buf: seq<char>, at: nat): string
    decreases |buf| - at
  {
    if at >= |buf| || buf[at] == NUL then "" else [buf[at]] + Str(buf, at + 1)
  }

  /** There is a zero from `at` on. */
  predicate Ended(buf: seq<char>, at: nat) { at + |Str(buf, at)| < |buf| }

  lemma {:induction false} StrIs(buf: seq<char>, at: nat, s: string)
    requires at + |s| <= |buf| && buf[at..at + |s|] == s && NUL !in s
    requires at + |s| < |buf| ==> buf[at + |s|] == NUL
    ensures Str(buf, at) == s
    decreases |s|
  {
    if s != "" {
      assert buf[at..at + |s|][0] == s[0];
      assert buf[at + 1..at + |s|] == s[1..];
      StrIs(buf, at + 1, s[1..]);
    }
  }

  lemma {:induction false} StrAt(buf: seq<char>, at: nat)
    requires at <= |buf|
    ensures at + |Str(buf, at)| <= |buf| && buf[at..at + |Str(buf, at)|] == Str(buf, at)
    ensures NUL !in Str(buf, at) && (at + |Str(buf, at)| < |buf| ==> buf[at + |Str(buf, at)|] == NUL)
    decreases |buf| - at
  {
    if at < |buf| && buf[at] != NUL {
      StrAt(buf, at + 1);
      assert buf[at..at + |Str(buf, at)|] == [buf[at]] + buf[at + 1..at + |Str(buf, at)|];
    }
  }

  // ----- words -----

  /** A string without the delimiters it begins with. */
  function Skipped(s: string, delim: char): (r: string)
    ensures |r| <= |s| && (r == "" || r[0] != delim) && r == s[|s| - |r|..]
    ensures forall i :: 0 <= i < |s| - |r| ==> s[i] == delim
  {
    if s != "" && s[0] == delim then Skipped(s[1..], delim) else s
  }

  /** A string up to its first delimiter. */
  function Head(s: string, delim: char): (r: string)
    ensures |r| <= |s| && r == s[..|r|] && delim !in r && (|r| < |s| ==> s[|r|] == delim)
  {
    if s == "" || s[0] == delim then "" else [s[0]] + Head(s[1..], delim)
  }

  /** What follows the first delimiter. */
  function Rest(s: string, delim: char): (r: string)
    ensures s != "" ==> |r| < |s|
  {
    var h := Head(s, delim);
    if |h| < |s| then s[|h| + 1..] else ""
  }

  /** The words of a string. */
  function Words(s: string, delim: char): seq<string>
    decreases |s|
  {
    var t := Skipped(s, delim);
    if t == "" then [] else [Head(t, delim)] + Words(Rest(t, delim), delim)
  }

  lemma Cut(before: seq<char>, after: seq<char>, tok: nat, t: string, delim: char)
    requires tok + |t| < |before| == |after| && before[tok..tok + |t|] == t && before[tok + |t|] == NUL && NUL !in t
    requires |Head(t, delim)| < |t| && after[tok + |Head(t, delim)|] == NUL
    requires forall i :: tok <= i < |after| && i != tok + |Head(t, delim)| ==> after[i] == before[i]
    ensures Str(after, tok) == Head(t, delim)
    ensures var next := tok + |Head(t, delim)| + 1;
      Str(after, next) == Rest(t, delim) && next + |Rest(t, delim)| == tok + |t| && Ended(after, next)
  {
    hide Str, Head;
    var h, r := Head(t, delim), Rest(t, delim);
    var next := tok + |h| + 1;
    forall i | tok <= i < tok + |t| ensures before[i] == t[i - tok] {
      assert before[i] == before[tok..tok + |t|][i - tok];
    }
    assert after[tok..tok + |h|] == h;
    assert after[next..next + |r|] == r;
    PartOf(t, 0, |h|);
    PartOf(t, |h| + 1, |t|);
    StrIs(after, tok, h);
    StrIs(after, next, r);
  }

  lemma PartOf(s: string, i: nat, j: nat)
    requires i <= j <= |s| && NUL !in s
    ensures NUL !in s[i..j]
  {
    forall k | 0 <= k < j - i ensures s[i..j][k] != NUL { assert s[i + k] in s; }
  }

  lemma Uncut(before: seq<char>, after: seq<char>, tok: nat, t: string, delim: char)
    requires tok + |t| < |before| == |after| && before[tok..tok + |t|] == t && before[tok + |t|] == NUL && NUL !in t
    requires |Head(t, delim)| == |t| && forall i :: tok <= i < |after| ==> after[i] == before[i]
    ensures Str(after, tok) == Head(t, delim) && Str(after, tok + |t|) == Rest(t, delim) && Ended(after, tok + |t|)
  {
    assert after[tok..tok + |t|] == t;
    StrIs(after, tok, t);
    StrIs(after, tok + |t|, "");
  }

  lemma TailOf(s: string, k: nat)
    requires k <= |s| && NUL !in s
    ensures NUL !in s[k..]
  {
    forall i | 0 <= i < |s| - k ensures s[k..][i] != NUL { assert s[k + i] in s; }
  }

  lemma SkippedPart(before: seq<char>, src: nat, s: string, delim: char)
    requires src + |s| < |before| && before[src..src + |s|] == s && NUL !in s && before[src + |s|] == NUL != delim
    ensures var t := Skipped(s, delim); var tok := src + |s| - |t|;
      tok + |t| < |before| && before[tok..tok + |t|] == t && NUL !in t && before[tok] != delim
    ensures forall i :: src <= i < src + |s| - |Skipped(s, delim)| ==> before[i] == delim
  {
    hide Skipped;
    var t := Skipped(s, delim);
    var k := |s| - |t|;
    TailOf(s, k);
    forall i | 0 <= i < |t| ensures before[src + k + i] == t[i] { assert before[src..src + |s|][k + i] == s[k..][i]; }
    forall i | src <= i < src + k ensures before[i] == delim { assert before[src..src + |s|][i - src] == s[i - src]; }
    assert before[src + k..src + k + |t|] == t;
    if t != "" { assert before[src + k] == t[0]; }
  }

  /** Finds a word, ends it with a zero, and says where the next one may start. */
  method Strtok(buf: array<char>, src: nat, delim: char) returns (tok: nat, next: nat)
    requires src <= buf.Length && Ended(buf[..], src) && delim != NUL
    modifies buf
    ensures src <= tok <= next < buf.Length && Ended(buf[..], next)
    ensures Str(buf[..], tok) == Head(Skipped(old(Str(buf[..], src)), delim), delim)
    ensures Str(buf[..], next) == Rest(Skipped(old(Str(buf[..], src)), delim), delim)
    ensures tok + |Str(buf[..], tok)| <= next && next + |Str(buf[..], next)| == old(src + |Str(buf[..], src)|)
    ensures tok + |Str(buf[..], tok)| < next || Str(buf[..], next) == ""
    ensures forall i :: 0 <= i < src ==> buf[i] == old(buf[i])
  {
    hide Str, Skipped, Head, Rest;
    ghost var before, s := buf[..], Str(buf[..], src);
    StrAt(before, src);
    ghost var t := Skipped(s, delim);
    SkippedPart(before, src, s, delim);
    tok := SkipDelims(buf, src, delim, src + |s| - |t|);
    ghost var mid := buf[..];
    assert mid[tok..tok + |t|] == before[tok..tok + |t|];
    next := EndWord(buf, tok, delim, t);
  }

  /** Zeroes the delimiters in front of a word. */
  method SkipDelims(buf: array<char>, src: nat, delim: char, ghost stop: nat) returns (tok: nat)
    requires src <= stop < buf.Length && buf[stop] != delim && forall i :: src <= i < stop ==> buf[i] == delim
    modifies buf
    ensures tok == stop && forall i :: 0 <= i < buf.Length && !(src <= i < stop) ==> buf[i] == old(buf[i])
  {
    tok := src;
    while buf[tok] == delim
      invariant src <= tok <= stop
      invariant forall i :: 0 <= i < buf.Length && !(src <= i < tok) ==> buf[i] == old(buf[i])
      decreases stop - tok
    {
      buf[tok] := NUL;
      tok := tok + 1;
    }
  }

  lemma HeadStops(t: string, delim: char, i: nat)
    requires i < |t| && i <= |Head(t, delim)|
    ensures t[i] == delim <==> i == |Head(t, delim)|
  {
    var h := Head(t, delim);
    if i < |h| { assert h[i] == t[i] && h[i] in h; }
  }

  /** Ends the word at `tok` with a zero. */
  method EndWord(buf: array<char>, tok: nat, delim: char, ghost t: string) returns (next: nat)
    requires tok + |t| < buf.Length && buf[..][tok..tok + |t|] == t && buf[tok + |t|] == NUL && NUL !in t
    modifies buf
    ensures Str(buf[..], tok) == Head(t, delim) && Str(buf[..], next) == Rest(t, delim)
    ensures tok + |Head(t, delim)| <= next && next + |Rest(t, delim)| == tok + |t| && Ended(buf[..], next)
    ensures tok + |Head(t, delim)| < next || Rest(t, delim) == ""
    ensures forall i :: 0 <= i < tok ==> buf[i] == old(buf[i])
  {
    hide Str, Head, Rest;
    ghost var before := buf[..];
    var at := tok;
    while buf[at] != NUL
      invariant tok <= at <= tok + |Head(t, delim)| <= tok + |t| && buf[..] == before
      decreases tok + |t| - at
    {
      assert before[at] == before[tok..tok + |t|][at - tok];
      HeadStops(t, delim, at - tok);
      if buf[at] == delim {
        buf[at] := NUL;
        Cut(before, buf[..], tok, t, delim);
        return at + 1;
      }
      at := at + 1;
    }
    RestNone(t, delim);
    Uncut(before, buf[..], tok, t, delim);
    return at;
  }

  lemma RestNone(t: string, delim: char)
    ensures |Head(t, delim)| == |t| ==> Rest(t, delim) == ""
  {}

  lemma {:induction false} StrKept(before: seq<char>, after: seq<char>, at: nat, bound: nat)
    requires |before| == |after| && bound <= |before| && at + |Str(before, at)| < bound
    requires forall i :: 0 <= i < bound ==> after[i] == before[i]
    ensures Str(after, at) == Str(before, at)
    decreases |before| - at
  {
    if at < |before| && before[at] != NUL { StrKept(before, after, at + 1, bound); }
  }

  lemma WordsStep(s: string, delim: char)
    ensures Head(Skipped(s, delim), delim) == "" ==> Words(s, delim) == [] && Rest(Skipped(s, delim), delim) == ""
    ensures Head(Skipped(s, delim), delim) != "" ==>
      Words(s, delim) == [Head(Skipped(s, delim), delim)] + Words(Rest(Skipped(s, delim), delim), delim)
  {
    hide Skipped;
    var t := Skipped(s, delim);
    assert Head("", delim) == "" && Rest("", delim) == "";
  }

  /** Word `i` of the string that was at `start` is now the string at `argv[i]`. */
  ghost predicate WordsAt(buf: seq<char>, argv: seq<nat>, words: seq<string>) {
    |argv| <= |words| && forall i :: 0 <= i < |argv| ==> Str(buf, argv[i]) == words[i]
  }

  /** Splits a string in place into its words, as many as asked for. */
  method Tokenize(buf: array<char>, start: nat, delim: char, most: nat) returns (argv: seq<nat>)
    requires start <= buf.Length && Ended(buf[..], start) && delim != NUL
    modifies buf
    ensures WordsAt(buf[..], argv, Words(old(Str(buf[..], start)), delim))
    ensures |argv| == Min(most, |Words(old(Str(buf[..], start)), delim)|)
  {
    hide Skipped, Head, Rest, Words, Str;
    ghost var all := Words(Str(buf[..], start), delim);
    argv := [];
    var tok: nat := start;
    StrEmpty(buf[..], tok);
    while tok < buf.Length && buf[tok] != NUL && |argv| < most
      invariant tok < buf.Length && Ended(buf[..], tok) && |argv| <= most
      invariant WordsAt(buf[..], argv, all) && all[|argv|..] == Words(Str(buf[..], tok), delim)
      invariant Str(buf[..], tok) == "" || forall i :: 0 <= i < |argv| ==> argv[i] + |Str(buf[..], argv[i])| < tok
      invariant buf[tok] == NUL <==> Str(buf[..], tok) == ""
      decreases |Str(buf[..], tok)| + (if buf[tok] != NUL then 1 else 0)
    {
      ghost var before := buf[..];
      WordsStep(Str(before, tok), delim);
      var word, next := Strtok(buf, tok, delim);
      KeptWords(before, buf[..], argv, all, tok);
      StrEmpty(buf[..], word);
      StrEmpty(buf[..], next);
      WordsEmpty(delim);
      if buf[word] != NUL {
        assert all[|argv|] == Words(Str(before, tok), delim)[0];
        assert all[|argv| + 1..] == all[|argv|..][1..];
        argv := argv + [word];
      }
      tok := next;
    }
    WordsEmpty(delim);
  }

  lemma StrEmpty(buf: seq<char>, at: nat)
    requires Ended(buf, at)
    ensures at < |buf| && (buf[at] == NUL <==> Str(buf, at) == "")
  {}

  lemma WordsEmpty(delim: char)
    ensures Words("", delim) == []
  {}

  lemma KeptWords(before: seq<char>, after: seq<char>, argv: seq<nat>, words: seq<string>, tok: nat)
    requires WordsAt(before, argv, words) && |before| == |after| && tok <= |before|
    requires forall i :: 0 <= i < |argv| ==> argv[i] + |Str(before, argv[i])| < tok
    requires forall i :: 0 <= i < tok ==> after[i] == before[i]
    ensures WordsAt(after, argv, words)
    ensures forall i :: 0 <= i < |argv| ==> argv[i] + |Str(after, argv[i])| < tok
  {
    hide Str;
    forall i | 0 <= i < |argv| ensures Str(after, argv[i]) == Str(before, argv[i]) {
      StrKept(before, after, argv[i], tok);
    }
  }

  // ----- numbers -----

  const WORD := 0x1_0000_0000

  /** A symbol as a number: a byte with a sign. */
  function Signed(c: char): int { if c as int < 0x80 then c as int else c as int - 0x100 }

  /** What a symbol counts for; one that is no digit counts for something as well, a negative number for the
      symbols from 128 on. */
  function DigitOf(c: char): int {
    var v := Signed(c);
    if v <= '9' as int then v - '0' as int
    else if v >= 'a' as int then 10 + (v - 'a' as int)
    else 10 + (v - 'A' as int)
  }

  /** The number a string stands for in a base, in 32 bits. */
  function Value(s: string, base: nat): (v: nat)
    ensures v < WORD
  {
    if s == "" then 0 else (Value(s[..|s|-1], base) * base + DigitOf(s[|s|-1])) % WORD
  }

  function IsHex(s: string): bool { |s| >= 2 && s[0] == '0' && s[1] == 'x' }

  function Parsed(s: string): nat { if IsHex(s) then Value(s[2..], 16) else Value(s, 10) }

  /** Parses a number. */
  method Stou(str: string) returns (value: nat)
    ensures value == Parsed(str)
  {
    var base, src := 10, str;
    // A leading 0x announces hexadecimal digits
    if IsHex(str) {
      src := str[2..];
      base := 16;
    }
    value := 0;
    var i := 0;
    while i < |src|
      invariant 0 <= i <= |src| && value == Value(src[..i], base)
    {
      assert src[..i+1][..i] == src[..i];
      value := (value * base + DigitOf(src[i])) % WORD;
      i := i + 1;
    }
    assert src[..i] == src;
  }

  function DigitChar(d: nat): char
    requires d < 10
  {
    ('0' as int + d) as char
  }

  /** A number in decimal. */
  function Digits(v: nat): (s: string)
    ensures s != "" && forall i :: 0 <= i < |s| ==> '0' <= s[i] <= '9'
  {
    if v < 10 then [DigitChar(v)] else Digits(v / 10) + [DigitChar(v % 10)]
  }

  /** Prints a number, last digit first, into the end of a buffer. */
  method Decimal(value0: nat) returns (s: string)
    ensures s == Digits(value0)
  {
    var value := value0;
    s := [DigitChar(value % 10)];
    value := value / 10;
    while value != 0
      invariant Digits(value0) == if value == 0 then s else Digits(value) + s
    {
      ghost var v := value;
      s := [DigitChar(value % 10)] + s;
      value := value / 10;
      assert Digits(v) == if v < 10 then [DigitChar(v)] else Digits(v / 10) + [DigitChar(v % 10)];
    }
  }

  /** A printed number is parsed as that number. */
  lemma {:induction false} ValueOfDigits(v: nat)
    requires v < WORD
    ensures Value(Digits(v), 10) == v
  {
    if v >= 10 {
      ValueOfDigits(v / 10);
      assert Digits(v)[..|Digits(v)|-1] == Digits(v / 10);
    }
  }

  lemma ParsedDigits(v: nat)
    requires v < WORD
    ensures Parsed(Digits(v)) == v
  {
    ValueOfDigits(v);
    assert |Digits(v)| >= 2 ==> '0' <= Digits(v)[1] <= '9';
  }

  /** Numbers that are read are the usual ones: another digit behind a number makes ten times as much, and the
      digit. */
  lemma NextDigit(s: string, d: nat)
    requires d < 10 && !IsHex(s + ["0123456789"[d]])
    ensures Parsed(s + ["0123456789"[d]]) == (10 * Value(s, 10) + d) % 0x1_0000_0000
    ensures Value("", 10) == 0
  {
    hide DigitOf, IsHex;
    ValueNext(s, "0123456789"[d], 10);
    TenDigits(d);
    ValueNone(10);
  }

  lemma TenDigits(d: nat)
    requires d < 10
    ensures DigitOf("0123456789"[d]) == d
  {}

  /** What a single symbol is read as, digit or not. */
  lemma EverySymbol(c: char)
    requires c as int < 0x100
    ensures Parsed([c]) == (
      if c < '0' then 0x1_0000_0000 - 48 + c as int
      else if c <= '9' then c as int - 48
      else if c < 'a' then c as int - 55
      else if c as int < 0x80 then c as int - 87
      else 0x1_0000_0000 - 304 + c as int)
  {
    ValueNone(10);
    assert [c] == "" + [c];
    ValueNext("", c, 10);
  }

  lemma ValueNext(s: string, c: char, base: nat)
    ensures Value(s + [c], base) == (Value(s, base) * base + DigitOf(c)) % WORD
  {
    assert (s + [c])[..|s + [c]|-1] == s;
  }

  /** A digit in hexadecimal, as a small letter or a capital. */
  function HexChar(d: nat, capitals: bool): char
    requires d < 16
  {
    (if capitals then "0123456789ABCDEF" else "0123456789abcdef")[d]
  }

  function HexDigits(v: nat, capitals: bool): (s: string)
    ensures s != ""
  {
    if v < 16 then [HexChar(v, capitals)] else HexDigits(v / 16, capitals) + [HexChar(v % 16, capitals)]
  }

  lemma {:induction false} ValueOfHex(v: nat, capitals: bool)
    requires v < WORD
    ensures Value(HexDigits(v, capitals), 16) == v
  {
    hide DigitOf, Value, HexChar;
    var c := HexChar(v % 16, capitals);
    HexDigit(v % 16, capitals);
    if v < 16 {
      ValueNone(16);
      ValueNext("", c, 16);
      assert "" + [c] == [c];
    } else {
      ValueOfHex(v / 16, capitals);
      ValueNext(HexDigits(v / 16, capitals), c, 16);
    }
  }

  lemma ValueNone(base: nat)
    ensures Value("", base) == 0
  {}

  lemma HexDigit(d: nat, capitals: bool)
    requires d < 16
    ensures DigitOf(HexChar(d, capitals)) == d
  {}

  /** Behind `0x`, hexadecimal digits are read as the number they stand for. */
  lemma ParsedHex(v: nat, capitals: bool)
    requires v < 0x1_0000_0000
    ensures Parsed("0x" + HexDigits(v, capitals)) == v
  {
    ValueOfHex(v, capitals);
    assert ("0x" + HexDigits(v, capitals))[2..] == HexDigits(v, capitals);
  }

  // ----- addresses -----

  type Address = s: seq<Byte> | |s| == 4 witness [0, 0, 0, 0]

  function Dotted(ip: Address): string {
    Digits(ip[0]) + "." + Digits(ip[1]) + "." + Digits(ip[2]) + "." + Digits(ip[3])
  }

  /** As much of a string as is copied before it is split. */
  function Clipped(s: string): (r: string)
    ensures r <= s && |r| == if |s| < 23 then |s| else 23
  {
    s[..Min(|s|, ADDRESS_MAX)]
  }

  /** An address with the bytes a string names put in. */
  function WithBytes(ip: Address, words: seq<string>): Address {
    seq(4, k requires 0 <= k < 4 => if k < |words| then Parsed(words[k]) % 0x100 else ip[k])
  }

  /** Reads up to four numbers of a dotted string into an address. */
  method StrToIp(ip: array<Byte>, str: string)
    requires ip.Length == 4 && NUL !in str
    modifies ip
    ensures ip[..] == WithBytes(old(ip[..]), Words(Clipped(str), '.'))
  {
    hide Words, Str, Parsed;
    ghost var before, clipped := ip[..], Clipped(str);
    var tok := new char[ADDRESS_MAX + 1](_ => NUL);
    CopyString(tok, str, ADDRESS_MAX);
    var argv := Tokenize(tok, 0, '.', 4);
    ghost var split := tok[..];
    var i := 0;
    while i < |argv|
      invariant 0 <= i <= |argv| <= 4 && tok[..] == split
      invariant forall k :: 0 <= k < 4 ==> ip[k] == if k < i then Parsed(Words(clipped, '.')[k]) % 0x100 else before[k]
    {
      var word := ReadString(tok, argv[i]);
      var value := Stou(word);
      ip[i] := value % 0x100;
      i := i + 1;
    }
  }

  /** Copies a string and its final zero, or as much of it as there is room for. */
  method CopyString(dst: array<char>, src: string, most: nat)
    requires most < dst.Length && NUL !in src
    modifies dst
    ensures Ended(dst[..], 0) && Str(dst[..], 0) == src[..Min(|src|, most)]
  {
    hide Str;
    var i := 0;
    while i < |src| && i < most
      invariant 0 <= i <= |src| && i <= most && dst[..i] == src[..i]
    {
      dst[i] := src[i];
      i := i + 1;
    }
    dst[i] := NUL;
    assert dst[0..0 + i] == src[..i];
    forall k | 0 <= k < i ensures src[..i][k] != NUL { assert src[k] in src; }
    StrIs(dst[..], 0, src[..i]);
  }

  /** The string at a place of a buffer. */
  method ReadString(buf: array<char>, at: nat) returns (s: string)
    ensures s == Str(buf[..], at)
  {
    s := "";
    var i := at;
    while i < buf.Length && buf[i] != NUL
      invariant at <= i && Str(buf[..], at) == s + Str(buf[..], i)
      decreases buf.Length - i
    {
      s := s + [buf[i]];
      i := i + 1;
    }
  }

  /** Prints an address. */
  method IpToStr(ip: array<Byte>) returns (s: string)
    requires ip.Length == 4
    ensures s == Dotted(ip[..])
  {
    hide Digits;
    var a := Decimal(ip[0]);
    var b := Decimal(ip[1]);
    var c := Decimal(ip[2]);
    var d := Decimal(ip[3]);
    s := a + "." + b + "." + c + "." + d;
  }

  /** A word and a delimiter in front of a string are one more word. */
  lemma WordsFirst(word: string, rest: string, delim: char)
    requires word != "" && delim !in word
    ensures Words(word + [delim] + rest, delim) == [word] + Words(rest, delim)
    ensures Words(word, delim) == [word]
  {
    var s := word + [delim] + rest;
    assert word[0] in word;
    assert Skipped(s, delim) == s && Skipped(word, delim) == word;
    HeadIs(s, word, delim);
    HeadIs(word, word, delim);
    assert s[|word| + 1..] == rest;
    WordsEmpty(delim);
  }

  /** A delimiter in front changes nothing, and where there is nothing there is no word. With `WordsFirst` this says
      all about words. */
  lemma WordsBehind(s: string, delim: char)
    ensures Words([delim] + s, delim) == Words(s, delim) && Words("", delim) == []
  {
    assert ([delim] + s)[1..] == s;
  }

  lemma {:induction false} HeadIs(s: string, word: string, delim: char)
    requires word <= s && delim !in word && (|word| < |s| ==> s[|word|] == delim)
    ensures Head(s, delim) == word
  {
    if word != "" {
      assert s[0] == word[0] && word[0] in word;
      assert forall c :: c in word[1..] ==> c in word;
      HeadIs(s[1..], word[1..], delim);
    }
  }

  lemma NoSymbol(v: nat, c: char)
    requires c < '0'
    ensures c !in Digits(v)
  {}

  lemma DottedWords(ip: Address)
    ensures Words(Dotted(ip), '.') == [Digits(ip[0]), Digits(ip[1]), Digits(ip[2]), Digits(ip[3])]
  {
    hide Words, Digits;
    var a, b, c, d := Digits(ip[0]), Digits(ip[1]), Digits(ip[2]), Digits(ip[3]);
    NoSymbol(ip[0], '.');
    NoSymbol(ip[1], '.');
    NoSymbol(ip[2], '.');
    NoSymbol(ip[3], '.');
    assert Dotted(ip) == a + ['.'] + (b + ['.'] + (c + ['.'] + d));
    WordsFirst(a, b + ['.'] + (c + ['.'] + d), '.');
    WordsFirst(b, c + ['.'] + d, '.');
    WordsFirst(c, d, '.');
    WordsFirst(d, "", '.');
  }

  lemma ByteDigits(v: Byte)
    ensures |Digits(v)| <= 3
  {
    assert v >= 100 ==> |Digits(v)| == |Digits(v / 10)| + 1 && |Digits(v / 10)| == |Digits(v / 100)| + 1;
  }

  /** A printed address is read back as that address. */
  lemma AddressBack(ip: Address, ip0: Address)
    ensures WithBytes(ip0, Words(Clipped(Dotted(ip)), '.')) == ip
    ensures |Dotted(ip)| <= 15
  {
    hide Words, Digits, Parsed;
    ByteDigits(ip[0]);
    ByteDigits(ip[1]);
    ByteDigits(ip[2]);
    ByteDigits(ip[3]);
    assert Clipped(Dotted(ip)) == Dotted(ip);
    DottedWords(ip);
    ParsedDigits(ip[0]);
    ParsedDigits(ip[1]);
    ParsedDigits(ip[2]);
    ParsedDigits(ip[3]);
  }

  /** An address with less than four numbers leaves the other bytes as they are, and of each number the low byte
      counts. */
  lemma ShortAddress(ip0: Address, a: nat, b: nat)
    requires a < 10000 && b < 10000
    ensures WithBytes(ip0, Words(Clipped(Digits(a) + "." + Digits(b)), '.')) ==
      [a % 0x100, b % 0x100, ip0[2], ip0[3]]
  {
    hide Words, Digits, Parsed;
    var s := Digits(a) + "." + Digits(b);
    FourDigits(a);
    FourDigits(b);
    assert Clipped(s) == s;
    NoSymbol(a, '.');
    NoSymbol(b, '.');
    WordsFirst(Digits(a), Digits(b), '.');
    WordsFirst(Digits(b), "", '.');
    ParsedDigits(a);
    ParsedDigits(b);
  }

  lemma FourDigits(v: nat)
    requires v < 10000
    ensures |Digits(v)| <= 4
  {
    if v >= 10 {
      assert |Digits(v)| == |Digits(v / 10)| + 1;
      if v >= 100 {
        assert |Digits(v / 10)| == |Digits(v / 100)| + 1 && v / 100 < 100;
        assert v >= 1000 ==> |Digits(v / 100)| == |Digits(v / 1000)| + 1;
      }
    }
  }

  // ----- commands -----

  datatype Settings = Settings(ip: Address, gate: Address)

  /** What a command line does to the settings. */
  function Applied(s: Settings, words: seq<string>): Settings {
    if |words| == 3 && words[0] == "config" && words[1] == "net_IP" then
      s.(ip := WithBytes(s.ip, Words(Clipped(words[2]), '.')))
    else if |words| == 3 && words[0] == "config" && words[1] == "net_gate" then
      s.(gate := WithBytes(s.gate, Words(Clipped(words[2]), '.')))
    else s
  }

  /** The text of a saved configuration, with its final zero. */
  function Saved(s: Settings): string {
    "config net_IP " + Dotted(s.ip) + "\n" + "config net_gate " + Dotted(s.gate) + "\n" + [NUL]
  }

  /** The first line break of a string. */
  function LineEnd(s: string): (i: nat)
    ensures i <= |s| && (i < |s| ==> s[i] == '\n') && forall k :: 0 <= k < i ==> s[k] != '\n'
  {
    if s == "" || s[0] == '\n' then 0 else 1 + LineEnd(s[1..])
  }

  /** What is read of a script at an offset. */
  function ChunkAt(file: string, offset: nat): string
    requires offset <= |file|
  {
    file[offset..offset + Min(LINE_MAX, |file| - offset)]
  }

  /** The settings after a script, run line by line. It ends at a line that is too long or not ended. */
  function RunFile(s: Settings, file: string, offset: nat): Settings
    requires offset <= |file|
    decreases |file| - offset
  {
    var chunk := ChunkAt(file, offset);
    var i := LineEnd(chunk);
    if i == |chunk| then s
    else RunFile(Applied(s, Words(Str(chunk[..i], 0), ' ')), file, offset + i + 1)
  }

  lemma ChunkFits(file: string, offset: nat)
    requires offset <= |file|
    ensures |ChunkAt(file, offset)| <= LINE_MAX && offset + |ChunkAt(file, offset)| <= |file|
  {}

  lemma RunStep(s: Settings, file: string, offset: nat)
    requires offset <= |file|
    ensures offset + |ChunkAt(file, offset)| <= |file|
    ensures var chunk := ChunkAt(file, offset); var i := LineEnd(chunk);
      RunFile(s, file, offset) == if i == |chunk| then s
        else RunFile(Applied(s, Words(Str(chunk[..i], 0), ' ')), file, offset + i + 1)
  {
    hide Applied, Words, Str, LineEnd;
  }

  class Machine {
    const ip: array<Byte>
    const gate: array<Byte>

    predicate Valid() reads this { ip.Length == 4 && gate.Length == 4 && ip != gate }

    function View(): Settings
      requires Valid()
      reads this, ip, gate
    {
      Settings(ip[..], gate[..])
    }

    constructor ()
      ensures Valid() && fresh(ip) && fresh(gate)
    {
      ip := new Byte[4];
      gate := new Byte[4];
    }

    /** The text that `config save` writes. */
    method Save() returns (text: string)
      requires Valid()
      ensures text == Saved(View())
    {
      var ipStr := IpToStr(ip);
      text := "config net_IP " + ipStr + "\n";
      var gateStr := IpToStr(gate);
      text := text + "config net_gate " + gateStr + "\n" + [NUL];
      assert text == Saved(View());
    }

    /** Runs a command line, as far as it concerns the settings. */
    method Execute(line: array<char>)
      requires Valid() && Ended(line[..], 0)
      modifies line, ip, gate
      ensures View() == Applied(old(View()), Words(old(Str(line[..], 0)), ' '))
    {
      hide Words, Str;
      ghost var words := Words(Str(line[..], 0), ' ');
      ghost var before := View();
      var argv := Tokenize(line, 0, ' ', ARG_MAX);
      if |argv| == 3 {
        var name := ReadString(line, argv[0]);
        var variable := ReadString(line, argv[1]);
        var value := ReadString(line, argv[2]);
        StrPlain(line[..], argv[2]);
        if name == "config" {
          if variable == "net_IP" {
            StrToIp(ip, value);
          } else if variable == "net_gate" {
            StrToIp(gate, value);
          }
        }
      }
    }

    /** Runs a script file. */
    method ExecFile(file: string)
      requires Valid()
      modifies ip, gate
      ensures View() == RunFile(old(View()), file, 0)
    {
      hide Words, Str, Applied, RunFile, LineEnd, ChunkAt;
      var line := new char[LINE_MAX](_ => NUL);
      var offset := 0;
      while true
        invariant 0 <= offset <= |file| && line.Length == LINE_MAX
        invariant RunFile(View(), file, offset) == RunFile(old(View()), file, 0)
        decreases |file| - offset
      {
        var chunk := ChunkAt(file, offset);
        ChunkFits(file, offset);
        RunStep(View(), file, offset);
        ReadInto(line, chunk);
        if |chunk| == 0 { return; }
        // One line, up to its end or the end of the buffer
        var i := 0;
        while i < |chunk| && line[i] != '\n'
          invariant 0 <= i <= |chunk| && forall k :: 0 <= k < i ==> chunk[k] != '\n'
        {
          i := i + 1;
        }
        LineEndIs(chunk, i);
        // A line that fills the buffer ends the script
        if i == |chunk| { return; }
        line[i] := NUL;
        offset := offset + 1 + i;
        LineStr(line[..], chunk, i);
        Execute(line);
      }
    }
  }

  /** Reads a piece of a file to the beginning of the line buffer. */
  method ReadInto(line: array<char>, chunk: string)
    requires |chunk| <= line.Length
    modifies line
    ensures forall k :: 0 <= k < |chunk| ==> line[k] == chunk[k]
  {
    forall k | 0 <= k < |chunk| { line[k] := chunk[k]; }
  }

  lemma StrPlain(buf: seq<char>, at: nat)
    ensures NUL !in Str(buf, at)
  {
    if at <= |buf| { StrAt(buf, at); }
  }

  lemma {:induction false} LineEndIs(s: string, i: nat)
    requires i <= |s| && (i < |s| ==> s[i] == '\n') && forall k :: 0 <= k < i ==> s[k] != '\n'
    ensures LineEnd(s) == i
  {}

  /** A line cut off in the buffer is the string up to there. */
  lemma LineStr(line: seq<char>, chunk: string, i: nat)
    requires i < |chunk| <= |line| && line[i] == NUL && forall k :: 0 <= k < i ==> line[k] == chunk[k]
    ensures Ended(line, 0) && Str(line, 0) == Str(chunk[..i], 0)
  {
    var s := Str(chunk[..i], 0);
    StrAt(chunk[..i], 0);
    assert line[0..0 + |s|] == s by {
      forall k | 0 <= k < |s| ensures line[k] == s[k] { assert chunk[..i][0..|s|][k] == s[k]; }
    }
    StrIs(line, 0, s);
  }

  // ----- the round trip -----

  lemma {:induction false} LineEndOf(line: string, rest: string)
    requires '\n' !in line
    ensures LineEnd(line + ['\n'] + rest) == |line|
  {
    var s := line + ['\n'] + rest;
    forall k | 0 <= k < |line| ensures s[k] != '\n' { assert s[k] == line[k] && line[k] in line; }
    LineEndIs(s, |line|);
  }

  /** A script that begins with a line that fits runs that line and then the rest. */
  lemma RunLine(s: Settings, file: string, offset: nat, line: string)
    requires offset + |line| < |file| && file[offset..offset + |line|] == line && file[offset + |line|] == '\n'
    requires |line| < LINE_MAX && '\n' !in line && NUL !in line
    ensures RunFile(s, file, offset) == RunFile(Applied(s, Words(line, ' ')), file, offset + |line| + 1)
  {
    hide Applied, Words, Str, RunFile, LineEnd;
    RunStep(s, file, offset);
    var chunk := ChunkAt(file, offset);
    forall k | 0 <= k < |line| ensures chunk[k] == line[k] { assert chunk[k] == file[offset..offset + |line|][k]; }
    assert chunk == line + ['\n'] + chunk[|line| + 1..];
    LineEndOf(line, chunk[|line| + 1..]);
    assert chunk[..|line|] == line;
    assert line[0..0 + |line|] == line;
    StrIs(line, 0, line);
  }

  /** A script ends where 72 symbols without a line break follow, or the file without one. */
  lemma RunEnds(s: Settings, file: string, offset: nat)
    requires offset <= |file| && forall k :: offset <= k < |file| && k < offset + 72 ==> file[k] != '\n'
    ensures RunFile(s, file, offset) == s
  {
    hide Applied, Words, Str, RunFile, LineEnd;
    RunStep(s, file, offset);
    var chunk := ChunkAt(file, offset);
    forall k | 0 <= k < |chunk| ensures chunk[k] != '\n' { assert chunk[k] == file[offset + k]; }
    LineEndIs(chunk, |chunk|);
  }

  lemma PlainDigits(v: nat)
    ensures '\n' !in Digits(v) && NUL !in Digits(v) && ' ' !in Digits(v)
  {}

  lemma PlainDotted(ip: Address)
    ensures '\n' !in Dotted(ip) && NUL !in Dotted(ip) && ' ' !in Dotted(ip) && Dotted(ip) != ""
  {
    hide Digits;
    PlainDigits(ip[0]);
    PlainDigits(ip[1]);
    PlainDigits(ip[2]);
    PlainDigits(ip[3]);
  }

  lemma CommandWords(name: string, value: string)
    requires name != "" && ' ' !in name && value != "" && ' ' !in value
    ensures Words("config " + name + " " + value, ' ') == ["config", name, value]
  {
    hide Words;
    assert "config " + name + " " + value == "config" + [' '] + (name + [' '] + value);
    WordsFirst("config", name + [' '] + value, ' ');
    WordsFirst(name, value, ' ');
    WordsFirst(value, "", ' ');
  }

  lemma RunCommand(s: Settings, file: string, offset: nat, name: string, ip: Address)
    requires name == "net_IP" || name == "net_gate"
    requires var line := "config " + name + " " + Dotted(ip);
      offset + |line| < |file| && file[offset..offset + |line|] == line && file[offset + |line|] == '\n'
    ensures var line := "config " + name + " " + Dotted(ip);
      RunFile(s, file, offset) ==
        RunFile(if name == "net_IP" then s.(ip := ip) else s.(gate := ip), file, offset + |line| + 1)
  {
    hide Words, RunFile, Dotted;
    var line := "config " + name + " " + Dotted(ip);
    PlainDotted(ip);
    AddressBack(ip, s.ip);
    AddressBack(ip, s.gate);
    CommandWords(name, Dotted(ip));
    RunLine(s, file, offset, line);
  }

  /** Running the saved text gives back the saved settings, whatever the settings were before. */
  lemma SavedBack(t: Settings, s: Settings)
    ensures RunFile(s, Saved(t), 0) == t
  {
    hide RunFile, Dotted;
    var file := Saved(t);
    var first, second := "config net_IP " + Dotted(t.ip), "config net_gate " + Dotted(t.gate);
    assert file == first + "\n" + second + "\n" + [NUL];
    assert first == "config " + "net_IP" + " " + Dotted(t.ip);
    assert second == "config " + "net_gate" + " " + Dotted(t.gate);
    assert file[0..0 + |first|] == first;
    RunCommand(s, file, 0, "net_IP", t.ip);
    var next := |first| + 1;
    assert file[next..next + |second|] == second;
    RunCommand(s.(ip := t.ip), file, next, "net_gate", t.gate);
    var last := next + |second| + 1;
    assert file[last..] == [NUL];
    RunStep(t, file, last);
    assert ChunkAt(file, last) == [NUL];
    LineEndIs([NUL], 1);
  }

  lemma OneMore(v: nat, s: string, d: nat)
    requires 0 < v && d < 10 && Digits(v) == s
    ensures Digits(10 * v + d) == s + ["0123456789"[d]]
  {
    assert (10 * v + d) / 10 == v && (10 * v + d) % 10 == d;
  }

  lemma OneDigit(d: nat)
    requires d < 10
    ensures Digits(d) == ["0123456789"[d]]
  {}

  /** An address with bytes of one, two and three digits, written out. */
  lemma DottedText()
    ensures Dotted([192, 0, 10, 7]) == "192.0.10.7" && Dotted([1, 0, 0, 7]) == "1.0.0.7"
  {
    hide Digits;
    OneDigit(0);
    OneDigit(1);
    OneDigit(7);
    OneMore(1, "1", 9);
    OneMore(19, "19", 2);
    OneMore(1, "1", 0);
  }

  /** The saved text of two addresses, written out. */
  lemma SavedText()
    ensures Saved(Settings([192, 0, 10, 7], [1, 0, 0, 7])) ==
      "config net_IP " + "192.0.10.7" + "\nconfig net_gate " + "1.0.0.7" + "\n" + [0 as char]
  {
    hide Digits, Dotted;
    DottedText();
    assert "\nconfig net_gate " == "\n" + "config net_gate ";
  }
}
