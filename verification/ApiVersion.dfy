/**
  API versions: printed as `v<decimal>`, and extracted from request paths, headers and query strings.
  Digits and whitespace are the ASCII ones.
*/
module ApiVersion {
  import opened Core
  import Template

  // ----- Decimals -----

  predicate IsDigit(c: char) {
    '0' <= c <= '9'
  }

  predicate AllDigits(s: string) {
    s == "" || (IsDigit(s[0]) && AllDigits(s[1..]))
  }

  function DigitChar(d: nat): (c: char)
    requires d < 10
    ensures IsDigit(c) && DigitValue(c) == d && c == "0123456789"[d]
  {
    '0' + d as char
  }

  function DigitValue(c: char): (d: nat)
    requires IsDigit(c)
    ensures d < 10 && "0123456789"[d] == c
  {
    (c - '0') as nat
  }

  /** The decimal rendering of a number. */
  function Decimal(n: nat): string {
    if n < 10 then [DigitChar(n)] else Decimal(n / 10) + [DigitChar(n % 10)]
  }

  /** The number that digits denote when they continue one that has been read so far. */
  function ValueFrom(read: nat, s: string): nat
    requires AllDigits(s)
    decreases |s|
  {
    if s == "" then read else ValueFrom(10 * read + DigitValue(s[0]), s[1..])
  }

  /** Reading digits with a check for overflow at each of them. */
  function ParseFrom(read: u32, s: string): Option<u32>
    decreases |s|
  {
    if s == "" then Some(read)
    else if !IsDigit(s[0]) then None
    else
      var n := 10 * read + DigitValue(s[0]);
      if n < U32_SIZE then ParseFrom(n, s[1..]) else None
  }

  /** `str::parse::<u32>`: a plus sign is allowed, an empty number is not. */
  function ParseU32(s: string): Option<u32> {
    var digits := if s != "" && s[0] == '+' then s[1..] else s;
    if digits == "" then None else ParseFrom(0, digits)
  }

  lemma {:induction false} ValueGrows(read: nat, s: string)
    requires AllDigits(s)
    ensures ValueFrom(read, s) >= read
    decreases |s|
  {
    if s != "" {
      ValueGrows(10 * read + DigitValue(s[0]), s[1..]);
    }
  }

  lemma {:induction false} ParsesIffFits(read: u32, s: string)
    ensures ParseFrom(read, s).Some? <==> AllDigits(s) && ValueFrom(read, s) < U32_SIZE
    ensures ParseFrom(read, s).Some? ==> ParseFrom(read, s).value == ValueFrom(read, s)
    decreases |s|
  {
    if s != "" && IsDigit(s[0]) {
      var n := 10 * read + DigitValue(s[0]);
      if n < U32_SIZE {
        ParsesIffFits(n, s[1..]);
      } else if AllDigits(s) {
        ValueGrows(n, s[1..]);
      }
    }
  }

  /** A matched run of digits is a version exactly when its value is at most 2^32 - 1, leading zeros or not. */
  lemma DigitsParseIff(s: string)
    requires AllDigits(s) && s != ""
    ensures ParseU32(s) == if ValueFrom(0, s) < U32_SIZE then Some(ValueFrom(0, s)) else None
  {
    ParsesIffFits(0, s);
  }

  /** `s` is a number in digits, after at most one plus sign, and denotes `n`. */
  ghost predicate Numeral(s: string, n: nat) {
    exists digits ::
      (s == digits || s == "+" + digits) && digits != "" && AllDigits(digits) && ValueFrom(0, digits) == n
  }

  /** Parsing succeeds exactly on the numerals below 2^32, with the number they denote. */
  lemma ParseU32Iff(s: string, n: nat)
    ensures (exists v :: ParseU32(s) == Some(v) && v == n) <==> Numeral(s, n) && n < 0x1_0000_0000
  {
    var digits := if s != "" && s[0] == '+' then s[1..] else s;
    ParsesIffFits(0, digits);
    if s != "" && s[0] == '+' {
      assert s == "+" + digits;
    }
    if Numeral(s, n) {
      var d :| (s == d || s == "+" + d) && d != "" && AllDigits(d) && ValueFrom(0, d) == n;
      assert s == "+" + d ==> s[1..] == d;
      assert d == digits;
    }
  }

  lemma {:induction false} DigitsSnoc(read: nat, s: string, c: char)
    requires AllDigits(s) && IsDigit(c)
    ensures AllDigits(s + [c]) && ValueFrom(read, s + [c]) == 10 * ValueFrom(read, s) + DigitValue(c)
    decreases |s|
  {
    if s == "" {
      assert s + [c] == [c] && [c][1..] == "";
    } else {
      assert (s + [c])[1..] == s[1..] + [c];
      DigitsSnoc(10 * read + DigitValue(s[0]), s[1..], c);
    }
  }

  lemma {:induction false} DecimalDenotes(n: nat)
    ensures Decimal(n) != "" && AllDigits(Decimal(n)) && ValueFrom(0, Decimal(n)) == n
    ensures n > 0 ==> Decimal(n)[0] != '0'
  {
    if n < 10 {
      assert Decimal(n)[1..] == "";
    } else {
      DecimalDenotes(n / 10);
      DigitsSnoc(0, Decimal(n / 10), DigitChar(n % 10));
    }
  }

  lemma {:induction false} AllDigitsFront(s: string)
    requires AllDigits(s) && s != ""
    ensures AllDigits(Front(s)) && IsDigit(Last(s))
  {
    if |s| > 1 {
      AllDigitsFront(s[1..]);
      assert Front(s) == [s[0]] + Front(s[1..]);
    }
  }

  /** The decimal of a number is the only run of digits without leading zeros that denotes it. */
  lemma {:induction false} DecimalIff(n: nat, s: string)
    ensures s == Decimal(n) <==>
              s != "" && AllDigits(s) && ValueFrom(0, s) == n && (|s| > 1 ==> s[0] != '0')
  {
    DecimalDenotes(n);
    if s != "" && AllDigits(s) && ValueFrom(0, s) == n && (|s| > 1 ==> s[0] != '0') {
      AllDigitsFront(s);
      DigitsSnoc(0, Front(s), Last(s));
      assert Front(s) + [Last(s)] == s;
      if |s| == 1 {
        assert Front(s) == "";
      } else {
        LeadingDigitCounts(Front(s));
        DecimalIff(n / 10, Front(s));
      }
    }
  }

  lemma {:induction false} LeadingDigitCounts(s: string)
    requires AllDigits(s) && s != "" && s[0] != '0'
    ensures ValueFrom(0, s) > 0
  {
    ValueGrows(DigitValue(s[0]), s[1..]);
  }

  /** Printing a version number and parsing it gives it back. */
  lemma DecimalRoundTrip(n: u32)
    ensures ParseU32(Decimal(n)) == Some(n)
  {
    DecimalDenotes(n);
    DigitsParseIff(Decimal(n));
  }

  function Display(n: u32): string {
    ['v'] + Decimal(n)
  }

  /** A version is printed as a `v` and the decimal of its number, and no other version is printed alike. */
  lemma DisplayIff(n: u32, s: string)
    ensures s == Display(n) <==>
              |s| > 1 && s[0] == 'v' && AllDigits(s[1..]) && ValueFrom(0, s[1..]) == n && (|s| > 2 ==> s[1] != '0')
  {
    if |s| > 1 {
      DecimalIff(n, s[1..]);
      assert s == [s[0]] + s[1..];
    }
    DecimalDenotes(n);
  }

  // ----- Runs of digits -----

  function Digits(s: string): string {
    if s != "" && IsDigit(s[0]) then [s[0]] + Digits(s[1..]) else ""
  }

  function AfterDigits(s: string): string {
    if s != "" && IsDigit(s[0]) then AfterDigits(s[1..]) else s
  }

  lemma {:induction false} DigitsOf(digits: string, rest: string)
    requires AllDigits(digits) && (rest == "" || !IsDigit(rest[0]))
    ensures Digits(digits + rest) == digits && AfterDigits(digits + rest) == rest
  {
    if digits == "" {
      assert digits + rest == rest;
    } else {
      assert (digits + rest)[1..] == digits[1..] + rest;
      DigitsOf(digits[1..], rest);
    }
  }

  lemma {:induction false} DigitsSplit(s: string)
    ensures AllDigits(Digits(s)) && s == Digits(s) + AfterDigits(s)
    ensures AfterDigits(s) == "" || !IsDigit(AfterDigits(s)[0])
  {
    if s != "" && IsDigit(s[0]) {
      DigitsSplit(s[1..]);
      assert ([s[0]] + Digits(s[1..]))[1..] == Digits(s[1..]);
      assert s == [s[0]] + s[1..];
    }
  }

  // ----- Versions in paths -----

  /** A path segment `/v<digits>` that starts right here and ends at a slash or at the end of the path. */
  function SegmentHere(s: string): Option<string> {
    if |s| >= 2 && s[0] == '/' && s[1] == 'v' && Digits(s[2..]) != ""
       && (AfterDigits(s[2..]) == "" || AfterDigits(s[2..])[0] == '/')
    then Some(Digits(s[2..])) else None
  }

  /** The leftmost such segment. */
  function FindSegment(s: string): Option<string> {
    if s == "" then None else if SegmentHere(s).Some? then SegmentHere(s) else FindSegment(s[1..])
  }

  function FromPath(path: string): Option<u32> {
    match FindSegment(path)
    case None => None
    case Some(digits) => ParseU32(digits)
  }

  predicate EndsSegment(suffix: string) {
    suffix == "" || suffix[0] == '/'
  }

  /** The segment found is the one the pattern describes. */
  lemma SegmentHereIsPattern(s: string, digits: string)
    ensures SegmentHere(s) == Some(digits) <==>
              digits != "" && AllDigits(digits)
              && exists suffix :: EndsSegment(suffix) && s == ['/', 'v'] + (digits + suffix)
  {
    if SegmentHere(s) == Some(digits) {
      DigitsSplit(s[2..]);
      assert s == ['/', 'v'] + s[2..];
      assert EndsSegment(AfterDigits(s[2..]));
    }
    if digits != "" && AllDigits(digits)
       && exists suffix :: EndsSegment(suffix) && s == ['/', 'v'] + (digits + suffix) {
      var suffix :| EndsSegment(suffix) && s == ['/', 'v'] + (digits + suffix);
      DigitsOf(digits, suffix);
      assert s[2..] == digits + suffix;
    }
  }

  /** A segment of this shape starts at `i`. */
  ghost predicate SegmentAt(path: string, i: int, digits: string) {
    && 0 <= i <= |path| && digits != "" && AllDigits(digits)
    && exists suffix :: EndsSegment(suffix) && path[i..] == ['/', 'v'] + (digits + suffix)
  }

  /** The search finds the leftmost segment, wherever it starts. */
  lemma {:induction false} FindSegmentIff(path: string, digits: string)
    ensures FindSegment(path) == Some(digits) <==>
              exists i :: SegmentAt(path, i, digits) && forall j, d :: 0 <= j < i ==> !SegmentAt(path, j, d)
  {
    assert path[0..] == path;
    forall d ensures SegmentAt(path, 0, d) <==> SegmentHere(path) == Some(d) {
      SegmentHereIsPattern(path, d);
    }
    if path != "" && SegmentHere(path).None? {
      FindSegmentIff(path[1..], digits);
      assert forall i :: 0 < i <= |path| ==> path[i..] == path[1..][i - 1..];
      assert forall i, d :: 0 < i <= |path| ==> (SegmentAt(path, i, d) <==> SegmentAt(path[1..], i - 1, d));
      if i :| SegmentAt(path[1..], i, digits) && forall j, d :: 0 <= j < i ==> !SegmentAt(path[1..], j, d) {
        assert SegmentAt(path, i + 1, digits);
        assert forall j, d :: 0 <= j < i + 1 ==> !SegmentAt(path, j, d);
      }
      if i :| SegmentAt(path, i, digits) && forall j, d :: 0 <= j < i ==> !SegmentAt(path, j, d) {
        assert SegmentAt(path[1..], i - 1, digits);
        assert forall j, d :: 0 <= j < i - 1 ==> !SegmentAt(path[1..], j, d) by {
          assert forall j, d :: 0 <= j < i - 1 ==> SegmentAt(path[1..], j, d) == SegmentAt(path, j + 1, d);
        }
      }
    }
  }

  /** A path has version `n` exactly when its leftmost version segment denotes `n`; there may be none. */
  lemma FromPathIff(path: string, n: u32)
    ensures FromPath(path) == Some(n) <==>
              exists i, digits :: SegmentAt(path, i, digits) && ValueFrom(0, digits) == n
                && forall j, d :: 0 <= j < i ==> !SegmentAt(path, j, d)
  {
    if FindSegment(path).Some? {
      var digits := FindSegment(path).value;
      FindSegmentIff(path, digits);
      DigitsParseIff(digits);
    }
    forall i, digits | SegmentAt(path, i, digits) && forall j, d :: 0 <= j < i ==> !SegmentAt(path, j, d)
      ensures FindSegment(path) == Some(digits)
    {
      FindSegmentIff(path, digits);
    }
  }

  lemma {:induction false} DigitsStopAtSlash(p: string, tail: string)
    requires tail != "" && tail[0] == '/'
    ensures Digits(p + tail) == Digits(p + "/")
    ensures AfterDigits(p + tail) != "" && AfterDigits(p + "/") != ""
    ensures AfterDigits(p + tail)[0] == AfterDigits(p + "/")[0]
  {
    if p == "" {
      assert p + tail == tail && p + "/" == "/";
    } else if IsDigit(p[0]) {
      assert (p + tail)[1..] == p[1..] + tail && (p + "/")[1..] == p[1..] + "/";
      DigitsStopAtSlash(p[1..], tail);
    }
  }

  /** A segment inside a prefix cannot depend on what follows the slash after it. */
  lemma SegmentStopsAtSlash(p: string, tail: string)
    requires p != "" && tail != "" && tail[0] == '/'
    ensures SegmentHere(p + tail) == SegmentHere(p + "/")
  {
    if |p| >= 2 {
      assert (p + tail)[2..] == p[2..] + tail && (p + "/")[2..] == p[2..] + "/";
      DigitsStopAtSlash(p[2..], tail);
    } else {
      assert (p + tail)[1] == '/' && (p + "/")[1] == '/';
    }
  }

  lemma {:induction false} FindInPrefix(prefix: string, tail: string)
    requires tail != "" && tail[0] == '/'
    ensures FindSegment(prefix + tail)
         == if FindSegment(prefix + "/").Some? then FindSegment(prefix + "/") else FindSegment(tail)
  {
    if prefix == "" {
      assert prefix + tail == tail && prefix + "/" == "/";
      assert FindSegment("/") == None;
    } else {
      SegmentStopsAtSlash(prefix, tail);
      assert (prefix + tail)[1..] == prefix[1..] + tail && (prefix + "/")[1..] == prefix[1..] + "/";
      FindInPrefix(prefix[1..], tail);
    }
  }

  /**
    Printing a version into a path and extracting it undo each other: whatever precedes it and whatever
    slash-started suffix follows, the version comes back, unless an earlier segment already looks like one,
    and then that earlier one decides, whether or not it fits in 32 bits.
  */
  lemma PathRoundTrip(prefix: string, n: u32, suffix: string)
    requires EndsSegment(suffix)
    ensures FromPath(prefix + (['/'] + (Display(n) + suffix)))
         == match FindSegment(prefix + "/") { case None => Some(n) case Some(digits) => ParseU32(digits) }
  {
    var tail := ['/'] + (Display(n) + suffix);
    FindInPrefix(prefix, tail);
    DecimalDenotes(n);
    DecimalRoundTrip(n);
    assert tail == ['/', 'v'] + (Decimal(n) + suffix);
    SegmentHereIsPattern(tail, Decimal(n));
  }

  // ----- Versions in headers and query strings -----

  function TrimStart(s: string): string {
    if s != "" && Template.IsSpace(s[0]) then TrimStart(s[1..]) else s
  }

  function TrimEnd(s: string): string {
    if s != "" && Template.IsSpace(Last(s)) then TrimEnd(Front(s)) else s
  }

  /** The digits behind a `version=` that starts right here. */
  function Keyed(s: string): string {
    if "version=" <= s then Digits(s[8..]) else ""
  }

  /** The digits behind the leftmost `version=` that has any. */
  function FindKeyed(s: string): Option<string> {
    if s == "" then None else if Keyed(s) != "" then Some(Keyed(s)) else FindKeyed(s[1..])
  }

  function FromHeader(header: string): Option<u32> {
    match ParseU32(TrimEnd(TrimStart(header)))
    case Some(n) => Some(n)
    case None =>
      match FindKeyed(header)
      case None => None
      case Some(digits) => ParseU32(digits)
  }

  /** `t` is `s` without the whitespace at either end. */
  ghost predicate Trimmed(s: string, t: string) {
    && (t != "" ==> t[0] !in " \t\n\r\U{B}\U{C}" && Last(t) !in " \t\n\r\U{B}\U{C}")
    && exists before, after :: Template.Blank(before) && Template.Blank(after) && s == before + t + after
  }

  lemma SpaceIsBlank(c: char)
    ensures Template.IsSpace(c) <==> c in " \t\n\r\U{B}\U{C}"
  {
    Template.AllSpaceIsBlank([c]);
    assert [c][1..] == "";
    assert Template.AllSpace([c]) <==> Template.IsSpace(c);
    assert Template.Blank([c]) <==> c in " \t\n\r\U{B}\U{C}" by {
      assert c in [c];
    }
  }

  lemma {:induction false} TrimStartSplits(s: string) returns (before: string)
    ensures Template.AllSpace(before) && s == before + TrimStart(s)
    ensures TrimStart(s) == "" || !Template.IsSpace(TrimStart(s)[0])
  {
    if s != "" && Template.IsSpace(s[0]) {
      var tail := TrimStartSplits(s[1..]);
      before := [s[0]] + tail;
      assert before[1..] == tail;
      assert s == [s[0]] + s[1..];
    } else {
      before := "";
    }
  }

  lemma {:induction false} TrimEndSplits(s: string) returns (after: string)
    ensures Template.Blank(after) && s == TrimEnd(s) + after
    ensures TrimEnd(s) == "" || (!Template.IsSpace(Last(TrimEnd(s))) && TrimEnd(s)[0] == s[0])
  {
    if s != "" && Template.IsSpace(Last(s)) {
      var head := TrimEndSplits(Front(s));
      after := head + [Last(s)];
      SpaceIsBlank(Last(s));
      assert s == Front(s) + [Last(s)];
    } else {
      after := "";
    }
  }

  /** Trimming from both ends leaves the one text that the whitespace surrounds. */
  lemma {:induction false} TrimIff(s: string, t: string)
    ensures t == TrimEnd(TrimStart(s)) <==> Trimmed(s, t)
  {
    var trimmed := TrimEnd(TrimStart(s));
    var before := TrimStartSplits(s);
    var after := TrimEndSplits(TrimStart(s));
    Template.AllSpaceIsBlank(before);
    assert s == before + trimmed + after;
    if trimmed != "" {
      SpaceIsBlank(trimmed[0]);
      SpaceIsBlank(Last(trimmed));
    }
    assert Trimmed(s, trimmed);
    if Trimmed(s, t) {
      TrimmedIsTrim(s, t);
    }
  }

  lemma {:induction false} TrimmedIsTrim(s: string, t: string)
    requires Trimmed(s, t)
    ensures t == TrimEnd(TrimStart(s))
  {
    var before, after :| Template.Blank(before) && Template.Blank(after) && s == before + t + after;
    Template.AllSpaceIsBlank(before);
    forall i | 0 <= i < |after| ensures Template.IsSpace(after[i]) {
      SpaceIsBlank(after[i]);
    }
    if t == "" {
      assert before + t + after == before + after;
      forall i | 0 <= i < |s| ensures Template.IsSpace(s[i]) {
        SpaceIsBlank(s[i]);
        assert s[i] in before || s[i] in after;
      }
      Template.AllSpaceIsBlank(s);
      assert s + "" == s;
      TrimStartOf(s, "");
    } else {
      SpaceIsBlank(t[0]);
      SpaceIsBlank(Last(t));
      assert s == before + (t + after);
      TrimStartOf(before, t + after);
      TrimEndOf(t, after);
    }
  }

  lemma {:induction false} TrimStartOf(pad: string, s: string)
    requires Template.AllSpace(pad) && (s == "" || !Template.IsSpace(s[0]))
    ensures TrimStart(pad + s) == s
  {
    if pad == "" {
      assert pad + s == s;
    } else {
      assert (pad + s)[1..] == pad[1..] + s;
      TrimStartOf(pad[1..], s);
    }
  }

  lemma {:induction false} SpaceAt(pad: string, i: nat)
    requires Template.AllSpace(pad) && i < |pad|
    ensures Template.IsSpace(pad[i])
  {
    if i > 0 {
      SpaceAt(pad[1..], i - 1);
    }
  }

  lemma {:induction false} TrimEndOf(s: string, pad: string)
    requires forall i :: 0 <= i < |pad| ==> Template.IsSpace(pad[i])
    requires s == "" || !Template.IsSpace(Last(s))
    ensures TrimEnd(s + pad) == s
  {
    if pad == "" {
      assert s + pad == s;
    } else {
      assert Front(s + pad) == s + Front(pad);
      TrimEndOf(s, Front(pad));
    }
  }

  lemma {:induction false} DigitAt(s: string, i: nat)
    requires AllDigits(s) && i < |s|
    ensures IsDigit(s[i])
  {
    if i > 0 {
      DigitAt(s[1..], i - 1);
    }
  }

  /** A header that is the decimal of a version, with any whitespace around it, gives that version. */
  lemma HeaderRoundTrip(before: string, n: u32, after: string)
    requires Template.AllSpace(before) && Template.AllSpace(after)
    ensures FromHeader(before + (Decimal(n) + after)) == Some(n)
  {
    var d := Decimal(n);
    DecimalDenotes(n);
    DigitAt(d, |d| - 1);
    TrimStartOf(before, d + after);
    forall i | 0 <= i < |after| ensures Template.IsSpace(after[i]) {
      SpaceAt(after, i);
    }
    TrimEndOf(d, after);
    DecimalRoundTrip(n);
  }

  lemma {:induction false} TrimStartKeeps(s: string, c: char)
    requires c in s && !Template.IsSpace(c)
    ensures c in TrimStart(s)
  {
    if Template.IsSpace(s[0]) {
      assert s == [s[0]] + s[1..];
      TrimStartKeeps(s[1..], c);
    }
  }

  lemma {:induction false} TrimEndKeeps(s: string, c: char)
    requires c in s && !Template.IsSpace(c)
    ensures c in TrimEnd(s)
  {
    if Template.IsSpace(Last(s)) {
      assert s == Front(s) + [Last(s)];
      TrimEndKeeps(Front(s), c);
    }
  }

  lemma {:induction false} DigitsOnly(s: string, c: char)
    requires AllDigits(s) && c in s
    ensures IsDigit(c)
  {
    if c != s[0] {
      assert s == [s[0]] + s[1..];
      DigitsOnly(s[1..], c);
    }
  }

  lemma LettersDoNotParse(s: string)
    requires 'v' in s
    ensures ParseU32(s) == None
  {
    var digits := if s[0] == '+' then s[1..] else s;
    assert s == [s[0]] + s[1..];
    assert 'v' in digits;
    if AllDigits(digits) {
      DigitsOnly(digits, 'v');
    }
    ParsesIffFits(0, digits);
  }

  /** The key cannot start strictly inside its own first occurrence: none of its later letters is a `v`. */
  lemma KeyDoesNotOverlap(s: string, i: nat)
    requires "version=" <= s && 1 <= i < 8
    ensures s[i] != 'v'
  {
    assert s[i] == "version="[i];
  }

  lemma KeyInLongPrefix(prefix: string, tail: string)
    requires |prefix| >= 8 && Keyed(prefix) == "" && tail != "" && !IsDigit(tail[0])
    ensures Keyed(prefix + tail) == ""
  {
    var s := prefix + tail;
    if "version=" <= s {
      assert prefix[..8] == s[..8];
      assert s[8..] == prefix[8..] + tail;
      assert s[8..][0] == if |prefix| == 8 then tail[0] else prefix[8..][0];
    }
  }

  /** No occurrence of the key with digits starts inside a prefix that has none, even where another one follows. */
  lemma NoKeyStraddles(prefix: string, tail: string)
    requires prefix != "" && Keyed(prefix) == "" && "version=" <= tail
    ensures Keyed(prefix + tail) == ""
  {
    var s := prefix + tail;
    assert tail[0] == 'v';
    if |prefix| >= 8 {
      KeyInLongPrefix(prefix, tail);
    } else if "version=" <= s {
      KeyDoesNotOverlap(s, |prefix|);
    }
  }

  lemma {:induction false} FindKeyedPrefix(prefix: string, tail: string)
    requires FindKeyed(prefix) == None && "version=" <= tail
    ensures FindKeyed(prefix + tail) == FindKeyed(tail)
  {
    if prefix == "" {
      assert prefix + tail == tail;
    } else {
      NoKeyStraddles(prefix, tail);
      assert (prefix + tail)[1..] == prefix[1..] + tail;
      FindKeyedPrefix(prefix[1..], tail);
    }
  }

  lemma KeyedDigits(digits: string, rest: string)
    requires AllDigits(digits) && (rest == "" || !IsDigit(rest[0]))
    ensures "version=" <= "version=" + (digits + rest)
    ensures Keyed("version=" + (digits + rest)) == digits
  {
    var s := "version=" + (digits + rest);
    DigitsOf(digits, rest);
    assert s[8..] == digits + rest;
  }

  /** A media type parameter `version=<decimal>` gives that version, if no earlier one does. */
  lemma AcceptRoundTrip(prefix: string, n: u32, rest: string)
    requires FindKeyed(prefix) == None && (rest == "" || !IsDigit(rest[0]))
    ensures FromHeader(prefix + ("version=" + (Decimal(n) + rest))) == Some(n)
  {
    var tail := "version=" + (Decimal(n) + rest);
    var header := prefix + tail;
    assert tail[0] == 'v';
    assert header[|prefix|] == 'v';
    TrimStartKeeps(header, 'v');
    TrimEndKeeps(TrimStart(header), 'v');
    LettersDoNotParse(TrimEnd(TrimStart(header)));
    DecimalDenotes(n);
    KeyedDigits(Decimal(n), rest);
    FindKeyedPrefix(prefix, tail);
    DecimalRoundTrip(n);
  }

  /** `version=` and then exactly these digits start at `i`. */
  ghost predicate KeyAt(s: string, i: int, digits: string) {
    && 0 <= i <= |s| && digits != "" && AllDigits(digits)
    && exists rest :: (rest == "" || !IsDigit(rest[0])) && s[i..] == "version=" + (digits + rest)
  }

  lemma KeyedIff(s: string, digits: string)
    requires digits != ""
    ensures Keyed(s) == digits <==> KeyAt(s, 0, digits)
  {
    assert s[0..] == s;
    if Keyed(s) == digits {
      DigitsSplit(s[8..]);
      assert s == "version=" + s[8..];
    }
    if KeyAt(s, 0, digits) {
      var rest :| (rest == "" || !IsDigit(rest[0])) && s == "version=" + (digits + rest);
      KeyedDigits(digits, rest);
    }
  }

  lemma {:induction false} FindKeyedIff(s: string, digits: string)
    ensures FindKeyed(s) == Some(digits) <==>
              exists i :: KeyAt(s, i, digits) && forall j, d :: 0 <= j < i ==> !KeyAt(s, j, d)
  {
    forall d | d != "" ensures Keyed(s) == d <==> KeyAt(s, 0, d) {
      KeyedIff(s, d);
    }
    if Keyed(s) != "" {
      assert KeyAt(s, 0, Keyed(s));
    } else if s == "" {
      assert forall i, d :: KeyAt(s, i, d) ==> KeyAt(s, 0, d);
    } else {
      FindKeyedIff(s[1..], digits);
      assert forall i :: 0 < i <= |s| ==> s[i..] == s[1..][i - 1..];
      assert forall i, d :: 0 < i <= |s| ==> (KeyAt(s, i, d) <==> KeyAt(s[1..], i - 1, d));
      if i :| KeyAt(s[1..], i, digits) && forall j, d :: 0 <= j < i ==> !KeyAt(s[1..], j, d) {
        assert KeyAt(s, i + 1, digits);
        assert forall j, d :: 0 <= j < i + 1 ==> !KeyAt(s, j, d);
      }
      if i :| KeyAt(s, i, digits) && forall j, d :: 0 <= j < i ==> !KeyAt(s, j, d) {
        assert KeyAt(s[1..], i - 1, digits);
        assert forall j, d :: 0 <= j < i - 1 ==> KeyAt(s[1..], j, d) == KeyAt(s, j + 1, d);
      }
    }
  }

  /**
    A header has version `n` exactly when it is a numeral of `n` between whitespace, or, if it is no numeral
    below 2^32, when the leftmost `version=` in it that has digits is followed by those of `n`.
  */
  lemma FromHeaderIff(header: string, n: u32)
    ensures FromHeader(header) == Some(n) <==>
              || (exists t :: Trimmed(header, t) && Numeral(t, n))
              || ((forall t, m: u32 :: Trimmed(header, t) ==> !Numeral(t, m))
                  && exists i, digits :: KeyAt(header, i, digits) && ValueFrom(0, digits) == n
                       && forall j, d :: 0 <= j < i ==> !KeyAt(header, j, d))
  {
    var t := TrimEnd(TrimStart(header));
    TrimIff(header, t);
    forall u | Trimmed(header, u) ensures u == t {
      TrimIff(header, u);
    }
    forall m: u32 ensures ParseU32(t) == Some(m) <==> Numeral(t, m) {
      ParseU32Iff(t, m);
    }
    if FindKeyed(header).Some? {
      FindKeyedIff(header, FindKeyed(header).value);
      DigitsParseIff(FindKeyed(header).value);
    }
    forall i, digits | KeyAt(header, i, digits) && forall j, d :: 0 <= j < i ==> !KeyAt(header, j, d)
      ensures FindKeyed(header) == Some(digits)
    {
      FindKeyedIff(header, digits);
    }
  }

  predicate IsSeparator(c: char) {
    c == '?' || c == '&'
  }

  /** The digits after the leftmost `?version=` or `&version=` that has any. */
  function FindInQuery(s: string): Option<string> {
    if s == "" then None
    else if IsSeparator(s[0]) && Keyed(s[1..]) != "" then Some(Keyed(s[1..]))
    else FindInQuery(s[1..])
  }

  function FromQuery(query: string): Option<u32> {
    match FindInQuery(query)
    case None => None
    case Some(digits) => ParseU32(digits)
  }

  /** A version parameter with these digits starts at `i`, separator included. */
  ghost predicate ParameterAt(s: string, i: int, digits: string) {
    0 <= i < |s| && (s[i] == '?' || s[i] == '&') && KeyAt(s, i + 1, digits)
  }

  lemma {:induction false} FindInQueryIff(s: string, digits: string)
    ensures FindInQuery(s) == Some(digits) <==>
              exists i :: ParameterAt(s, i, digits) && forall j, d :: 0 <= j < i ==> !ParameterAt(s, j, d)
  {
    if s != "" {
      forall d | d != "" ensures Keyed(s[1..]) == d <==> KeyAt(s, 1, d) {
        KeyedIff(s[1..], d);
        assert s[1..][0..] == s[1..];
      }
      if IsSeparator(s[0]) && Keyed(s[1..]) != "" {
        assert ParameterAt(s, 0, Keyed(s[1..]));
      } else {
        FindInQueryIff(s[1..], digits);
        assert forall i :: 0 < i <= |s| ==> s[i..] == s[1..][i - 1..];
        assert forall i, d :: 0 < i < |s| ==> (KeyAt(s, i + 1, d) <==> KeyAt(s[1..], i, d));
        assert forall i, d :: 0 < i < |s| ==> (ParameterAt(s, i, d) <==> ParameterAt(s[1..], i - 1, d));
        if i :| ParameterAt(s[1..], i, digits) && forall j, d :: 0 <= j < i ==> !ParameterAt(s[1..], j, d) {
          assert ParameterAt(s, i + 1, digits);
          assert forall j, d :: 0 <= j < i + 1 ==> !ParameterAt(s, j, d);
        }
        if i :| ParameterAt(s, i, digits) && forall j, d :: 0 <= j < i ==> !ParameterAt(s, j, d) {
          assert ParameterAt(s[1..], i - 1, digits);
          assert forall j, d :: 0 <= j < i - 1 ==> ParameterAt(s[1..], j, d) == ParameterAt(s, j + 1, d);
        }
      }
    }
  }

  /** A query has version `n` exactly when its leftmost version parameter with digits denotes `n`. */
  lemma FromQueryIff(query: string, n: u32)
    ensures FromQuery(query) == Some(n) <==>
              exists i, digits :: ParameterAt(query, i, digits) && ValueFrom(0, digits) == n
                && forall j, d :: 0 <= j < i ==> !ParameterAt(query, j, d)
  {
    if FindInQuery(query).Some? {
      FindInQueryIff(query, FindInQuery(query).value);
      DigitsParseIff(FindInQuery(query).value);
    }
    forall i, digits | ParameterAt(query, i, digits) && forall j, d :: 0 <= j < i ==> !ParameterAt(query, j, d)
      ensures FindInQuery(query) == Some(digits)
    {
      FindInQueryIff(query, digits);
    }
  }

  lemma {:induction false} SkipToSeparator(p: string, rest: string)
    requires forall i :: 0 <= i < |p| ==> !IsSeparator(p[i])
    ensures FindInQuery(p + rest) == FindInQuery(rest)
  {
    if p == "" {
      assert p + rest == rest;
    } else {
      assert (p + rest)[1..] == p[1..] + rest;
      SkipToSeparator(p[1..], rest);
    }
  }

  lemma ParameterSkipped(digits: string, rest: string)
    requires AllDigits(digits)
    ensures FindInQuery("version=" + (digits + rest)) == FindInQuery(rest)
  {
    SkipToSeparator("version=", digits + rest);
    forall i | 0 <= i < |digits| ensures !IsSeparator(digits[i]) {
      DigitAt(digits, i);
    }
    SkipToSeparator(digits, rest);
  }

  /** Behind a prefix without a version, a parameter is found if the prefix ends in a separator, and skipped if not. */
  lemma {:induction false} FindBehindPrefix(prefix: string, digits: string, rest: string)
    requires FindInQuery(prefix) == None
    requires AllDigits(digits) && digits != "" && (rest == "" || !IsDigit(rest[0]))
    ensures FindInQuery(prefix + ("version=" + (digits + rest)))
         == if prefix != "" && IsSeparator(Last(prefix)) then Some(digits) else FindInQuery(rest)
  {
    var tail := "version=" + (digits + rest);
    KeyedDigits(digits, rest);
    if prefix == "" {
      assert prefix + tail == tail;
      ParameterSkipped(digits, rest);
    } else {
      assert (prefix + tail)[1..] == prefix[1..] + tail;
      if prefix[1..] == "" {
        assert prefix[1..] + tail == tail;
      } else {
        if IsSeparator(prefix[0]) {
          NoKeyStraddles(prefix[1..], tail);
        }
        assert Last(prefix[1..]) == Last(prefix);
      }
      FindBehindPrefix(prefix[1..], digits, rest);
    }
  }

  /**
    Anywhere in a query string without an earlier version, a version parameter is found exactly when a
    separator precedes it, or when what follows names the same version anyway. The caller strips the question
    mark, so as the first parameter it is not found.
  */
  lemma QueryVersionNeedsSeparator(prefix: string, n: u32, rest: string)
    requires FindInQuery(prefix) == None && (rest == "" || !IsDigit(rest[0]))
    ensures FromQuery(prefix + ("version=" + (Decimal(n) + rest))) == Some(n)
       <==> (prefix != "" && IsSeparator(Last(prefix))) || FromQuery(rest) == Some(n)
    ensures prefix == "" || !IsSeparator(Last(prefix))
        ==> FromQuery(prefix + ("version=" + (Decimal(n) + rest))) == FromQuery(rest)
  {
    DecimalDenotes(n);
    DecimalRoundTrip(n);
    FindBehindPrefix(prefix, Decimal(n), rest);
  }
}
