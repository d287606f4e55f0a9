/** Source text as bytes: UTF-8 validity, lines and truncation, as the CSV
    generator's line index and content limits use them. */
module SourceText {
  type Byte = b: int | 0 <= b < 256

  type Bytes = seq<Byte>

  const LF: Byte := 10
  const CR: Byte := 13

  // ------------------------------------------------------------------
  // UTF-8 (section 4 of RFC 3629)
  // ------------------------------------------------------------------

  predicate IsTail(b: Byte) {
    0x80 <= b <= 0xBF
  }

  predicate TailsFrom(s: Bytes, i: nat, n: nat) {
    n <= |s| && forall k | i <= k < n :: IsTail(s[k])
  }

  /** Length of the encoded character `s` starts with, zero when it starts with none. */
  function CharLength(s: Bytes): (n: nat)
    ensures n <= 4 && n <= |s|
    ensures n > 0 ==> !IsTail(s[0]) && TailsFrom(s, 1, n)
  {
    if s == [] then 0
    else if s[0] <= 0x7F then 1
    else if 0xC2 <= s[0] <= 0xDF && TailsFrom(s, 1, 2) then 2
    else if 0xE0 <= s[0] <= 0xEF && TailsFrom(s, 1, 3)
         && (s[0] == 0xE0 ==> s[1] >= 0xA0) && (s[0] == 0xED ==> s[1] <= 0x9F) then 3
    else if 0xF0 <= s[0] <= 0xF4 && TailsFrom(s, 1, 4)
         && (s[0] == 0xF0 ==> s[1] >= 0x90) && (s[0] == 0xF4 ==> s[1] <= 0x8F) then 4
    else 0
  }

  predicate ValidUtf8(s: Bytes) {
    s == [] || (CharLength(s) > 0 && ValidUtf8(s[CharLength(s)..]))
  }

  /** `str::is_char_boundary` */
  predicate IsCharBoundary(s: Bytes, i: nat) {
    i == 0 || i == |s| || (i < |s| && !IsTail(s[i]))
  }

  lemma CharLengthOfPrefix(s: Bytes, t: Bytes)
    requires CharLength(s) > 0 && s[..CharLength(s)] <= t
    ensures CharLength(t) == CharLength(s)
  {
    var n := CharLength(s);
    assert forall k | 0 <= k < n :: t[k] == s[k];
  }

  lemma {:induction false} ValidUtf8Concat(a: Bytes, b: Bytes)
    requires ValidUtf8(a) && ValidUtf8(b)
    ensures ValidUtf8(a + b)
    decreases |a|
  {
    if a == [] {
      assert a + b == b;
    } else {
      var n := CharLength(a);
      CharLengthOfPrefix(a, a + b);
      assert (a + b)[n..] == a[n..] + b;
      ValidUtf8Concat(a[n..], b);
    }
  }

  /** Cutting valid text at a boundary leaves two valid texts. */
  lemma {:induction false} ValidUtf8Cut(s: Bytes, i: nat)
    requires ValidUtf8(s) && i <= |s| && IsCharBoundary(s, i)
    ensures ValidUtf8(s[..i]) && ValidUtf8(s[i..])
    decreases |s|
  {
    if i == 0 {
      assert s[i..] == s && s[..i] == [];
    } else {
      var n := CharLength(s);
      assert n <= i;
      assert s[n..][..i - n] == s[n..i] && s[n..][i - n..] == s[i..];
      ValidUtf8Cut(s[n..], i - n);
      CharLengthOfPrefix(s, s[..i]);
      assert s[..i][n..] == s[n..i];
    }
  }

  /** In valid text one of any four consecutive positions is a boundary. */
  lemma {:induction false} BoundaryWithinFour(s: Bytes, i: nat) returns (j: nat)
    requires ValidUtf8(s) && i <= |s|
    ensures j <= i <= j + 3 && IsCharBoundary(s, j)
    decreases |s|
  {
    if i == 0 {
      j := 0;
    } else {
      var n := CharLength(s);
      if i < n {
        j := 0;
      } else {
        j := BoundaryWithinFour(s[n..], i - n);
        j := j + n;
      }
    }
  }

  // ------------------------------------------------------------------
  // Truncation
  // ------------------------------------------------------------------

  /** The last boundary at or before `end`. */
  function LastBoundary(s: Bytes, end: nat): (e: nat)
    ensures e <= end && IsCharBoundary(s, e)
    ensures forall k | e < k <= end :: !IsCharBoundary(s, k)
  {
    if end == 0 || IsCharBoundary(s, end) then end else LastBoundary(s, end - 1)
  }

  /** The longest prefix of at most `maxLen` bytes that ends on a boundary. */
  function Truncated(s: Bytes, maxLen: nat): Bytes {
    if |s| <= maxLen then s else s[..LastBoundary(s, maxLen)]
  }

  method TruncateContent(s: Bytes, maxLen: nat) returns (r: Bytes)
    ensures r == Truncated(s, maxLen)
  {
    if |s| <= maxLen {
      return s;
    }
    var end: nat := maxLen;
    while end > 0 && !IsCharBoundary(s, end)
      invariant end <= maxLen
      invariant LastBoundary(s, end) == LastBoundary(s, maxLen)
    {
      end := end - 1;
    }
    r := s[..end];
  }

  /** A prefix within the limit, on a boundary, longest such, at most three bytes short. */
  lemma TruncatedIsLongestPrefix(s: Bytes, maxLen: nat)
    requires ValidUtf8(s)
    ensures var t := Truncated(s, maxLen);
            && t <= s && |t| <= maxLen && ValidUtf8(t)
            && (forall k | |t| < k <= |s| && k <= maxLen :: !ValidUtf8(s[..k]))
            && (t != s ==> |t| + 3 >= maxLen)
  {
    var t := Truncated(s, maxLen);
    if |s| > maxLen {
      ValidUtf8Cut(s, |t|);
      var j := BoundaryWithinFour(s, maxLen);
      forall k | |t| < k <= maxLen ensures !ValidUtf8(s[..k]) {
        InsideCharacter(s, k);
      }
    }
  }

  /** Cutting valid text inside a character leaves no valid prefix. */
  lemma {:induction false} InsideCharacter(s: Bytes, k: nat)
    requires ValidUtf8(s) && k <= |s| && !IsCharBoundary(s, k)
    ensures !ValidUtf8(s[..k])
    decreases |s|
  {
    var n := CharLength(s);
    var p := s[..k];
    if k >= n {
      assert s[..n] <= p;
      CharLengthOfPrefix(s, p);
      assert p[n..] == s[n..][..k - n];
      InsideCharacter(s[n..], k - n);
    }
  }

  /** Truncating an early-cut text equals truncating the whole, when the cut is
      past the limit or falls on a boundary. */
  lemma TruncatedOfEarlyCut(part: Bytes, full: Bytes, maxLen: nat)
    requires part <= full && |part| >= maxLen
    requires |part| > maxLen || IsCharBoundary(full, |part|)
    ensures Truncated(part, maxLen) == Truncated(full, maxLen)
  {
    if |part| > maxLen {
      assert forall k | 0 <= k <= maxLen :: IsCharBoundary(part, k) == IsCharBoundary(full, k);
      assert LastBoundary(part, maxLen) == LastBoundary(full, maxLen);
    }
  }

  // ------------------------------------------------------------------
  // Sanitizing
  // ------------------------------------------------------------------

  /** Tab, line feed, carriage return and everything printable. */
  predicate IsKept(b: Byte) {
    b == 9 || b == LF || b == CR || (b >= 0x20 && b != 0x7F)
  }

  function Sanitize(s: Bytes): Bytes {
    if s == [] then [] else (if IsKept(s[0]) then [s[0]] else []) + Sanitize(s[1..])
  }

  function NonPrintable(s: Bytes): (n: nat)
    ensures n <= |s|
  {
    if s == [] then 0 else
      NonPrintable(s[1..]) + if s[0] < 0x20 && s[0] != 9 && s[0] != LF && s[0] != CR then 1 else 0
  }

  /** More than one byte in ten is non-printable. */
  predicate IsBinaryContent(s: Bytes) {
    s != [] && NonPrintable(s) * 10 > |s|
  }

  lemma {:induction false} SanitizeConcat(a: Bytes, b: Bytes)
    ensures Sanitize(a + b) == Sanitize(a) + Sanitize(b)
  {
    hide IsKept;
    if a == [] {
      assert a + b == b;
    } else {
      assert (a + b)[1..] == a[1..] + b;
      SanitizeConcat(a[1..], b);
    }
  }

  lemma {:induction false} SanitizeKeepsAll(s: Bytes)
    requires forall k | 0 <= k < |s| :: IsKept(s[k])
    ensures Sanitize(s) == s
  {
    if s != [] {
      SanitizeKeepsAll(s[1..]);
    }
  }

  /** Filtering bytes is filtering characters: the sanitized text is valid again. */
  lemma {:induction false} SanitizeKeepsUtf8(s: Bytes)
    requires ValidUtf8(s)
    ensures ValidUtf8(Sanitize(s))
    decreases |s|
  {
    if s != [] {
      var n := CharLength(s);
      assert s == s[..n] + s[n..];
      SanitizeConcat(s[..n], s[n..]);
      SanitizeKeepsUtf8(s[n..]);
      CharLengthOfPrefix(s, s[..n]);
      assert s[..n][n..] == [];
      if n > 1 || IsKept(s[0]) {
        SanitizeKeepsAll(s[..n]);
        assert ValidUtf8(s[..n]);
      } else {
        assert Sanitize(s[..1]) == [];
      }
      ValidUtf8Concat(Sanitize(s[..n]), Sanitize(s[n..]));
    }
  }

  lemma {:induction false} SanitizeLeavesOnlyKept(s: Bytes)
    ensures forall b :: b in Sanitize(s) <==> b in s && IsKept(b)
    ensures Sanitize(Sanitize(s)) == Sanitize(s)
  {
    if s != [] {
      SanitizeLeavesOnlyKept(s[1..]);
      assert s == [s[0]] + s[1..];
    }
    var t := Sanitize(s);
    forall k | 0 <= k < |t| ensures IsKept(t[k]) {
      assert t[k] in t;
    }
    SanitizeKeepsAll(t);
  }

  // ------------------------------------------------------------------
  // Lines
  // ------------------------------------------------------------------

  /** Position of the first line feed, or the length. */
  function FirstLf(s: Bytes): (n: nat)
    ensures n <= |s| && (n < |s| ==> s[n] == LF)
    ensures forall k | 0 <= k < n :: s[k] != LF
  {
    if s == [] || s[0] == LF then 0 else 1 + FirstLf(s[1..])
  }

  function StripCr(line: Bytes): Bytes {
    if line != [] && line[|line| - 1] == CR then line[..|line| - 1] else line
  }

  /** `str::lines`: LF or CR LF ends a line, a last unterminated line counts if not empty. */
  function Lines(s: Bytes): seq<Bytes> {
    if s == [] then []
    else if FirstLf(s) == |s| then [s]
    else [StripCr(s[..FirstLf(s)])] + Lines(s[FirstLf(s) + 1..])
  }

  /** A line's place in the text: from `start`, up to and not including `end`. */
  datatype Span = Span(start: nat, end: nat)

  predicate WithinText(s: Bytes, spans: seq<Span>) {
    forall k | 0 <= k < |spans| :: spans[k].start <= spans[k].end <= |s|
  }

  function Slices(s: Bytes, spans: seq<Span>): seq<Bytes>
    requires WithinText(s, spans)
  {
    seq(|spans|, k requires 0 <= k < |spans| => s[spans[k].start..spans[k].end])
  }

  lemma {:induction false} FirstLfIs(s: Bytes, n: nat)
    requires n <= |s| && (n < |s| ==> s[n] == LF)
    requires forall k | 0 <= k < n :: s[k] != LF
    ensures FirstLf(s) == n
  {
    if n > 0 { FirstLfIs(s[1..], n - 1); }
  }

  lemma NextLine(s: Bytes, start: nat, index: nat)
    requires start <= index < |s| && s[index] == LF
    requires forall k | start <= k < index :: s[k] != LF
    ensures Lines(s[start..]) == [StripCr(s[start..index])] + Lines(s[index + 1..])
  {
    var t := s[start..];
    FirstLfIs(t, index - start);
    assert t[..index - start] == s[start..index];
    assert t[index - start + 1..] == s[index + 1..];
  }

  lemma LastLine(s: Bytes, start: nat)
    requires start <= |s| && forall k | start <= k < |s| :: s[k] != LF
    ensures Lines(s[start..]) == if start < |s| then [s[start..]] else []
  {
    FirstLfIs(s[start..], |s| - start);
  }

  /** The index while scanning: complete lines before `start`, no line feed since. */
  ghost predicate IndexedUpTo(text: Bytes, lines: seq<Span>, start: nat, index: nat) {
    && start <= index <= |text| && WithinText(text, lines)
    && (forall k | start <= k < index :: text[k] != LF)
    && Slices(text, lines) + Lines(text[start..]) == Lines(text)
  }

  lemma IndexLine(text: Bytes, lines: seq<Span>, start: nat, index: nat, end: nat)
    requires IndexedUpTo(text, lines, start, index) && index < |text| && text[index] == LF
    requires end == if index > start && text[index - 1] == CR then index - 1 else index
    ensures IndexedUpTo(text, lines + [Span(start, end)], index + 1, index + 1)
  {
    hide Lines, Slices, StripCr;
    NextLine(text, start, index);
    PushSpan(text, lines, Span(start, end));
    StripCrSpan(text, start, index, end);
    PushLine(Slices(text, lines), text[start..end], Lines(text[index + 1..]));
  }

  lemma IndexEnd(text: Bytes, lines: seq<Span>, start: nat)
    requires IndexedUpTo(text, lines, start, |text|)
    ensures var all := if start < |text| then lines + [Span(start, |text|)] else lines;
            WithinText(text, all) && Slices(text, all) == Lines(text)
  {
    hide Lines, Slices;
    LastLine(text, start);
    if start < |text| {
      PushSpan(text, lines, Span(start, |text|));
      assert text[start..|text|] == text[start..];
    }
  }

  /** The line index of `CachedFile::new`: the spans are the lines of the text. */
  method IndexLines(text: Bytes) returns (lines: seq<Span>)
    ensures WithinText(text, lines) && Slices(text, lines) == Lines(text)
  {
    hide *;
    lines := [];
    var start: nat := 0;
    NoSpans(text);
    for index := 0 to |text|
      invariant start <= index && IndexedUpTo(text, lines, start, index)
    {
      if text[index] == LF {
        var end := if index > start && text[index - 1] == CR then index - 1 else index;
        IndexLine(text, lines, start, index, end);
        lines := lines + [Span(start, end)];
        start := index + 1;
      } else {
        IndexByte(text, lines, start, index);
      }
    }
    IndexEnd(text, lines, start);
    if start < |text| {
      lines := lines + [Span(start, |text|)];
    }
  }

  lemma IndexByte(text: Bytes, lines: seq<Span>, start: nat, index: nat)
    requires IndexedUpTo(text, lines, start, index) && index < |text| && text[index] != LF
    ensures IndexedUpTo(text, lines, start, index + 1)
  {
  }

  lemma NoSpans(s: Bytes)
    ensures IndexedUpTo(s, [], 0, 0)
  {
    assert s[0..] == s;
  }

  lemma PushLine(lines: seq<Bytes>, line: Bytes, rest: seq<Bytes>)
    ensures lines + ([line] + rest) == (lines + [line]) + rest
  {
  }

  lemma PushSpan(s: Bytes, spans: seq<Span>, span: Span)
    requires WithinText(s, spans) && span.start <= span.end <= |s|
    ensures WithinText(s, spans + [span])
    ensures Slices(s, spans + [span]) == Slices(s, spans) + [s[span.start..span.end]]
  {
  }

  lemma StripCrSpan(s: Bytes, start: nat, index: nat, end: nat)
    requires start <= index < |s|
    requires end == if index > start && s[index - 1] == CR then index - 1 else index
    ensures s[start..end] == StripCr(s[start..index])
  {
  }

  // ------------------------------------------------------------------
  // Joining lines, with and without the early exit
  // ------------------------------------------------------------------

  function JoinLines(lines: seq<Bytes>): Bytes {
    if lines == [] then []
    else if |lines| == 1 then lines[0]
    else JoinLines(lines[..|lines| - 1]) + [LF] + lines[|lines| - 1]
  }

  lemma {:induction false} JoinOfPrefix(lines: seq<Bytes>, i: nat)
    requires 0 < i < |lines|
    ensures JoinLines(lines[..i]) + [LF] <= JoinLines(lines)
    decreases |lines|
  {
    var init := lines[..|lines| - 1];
    if i < |lines| - 1 {
      assert init[..i] == lines[..i];
      JoinOfPrefix(init, i);
    }
  }

  /** Joining stops as soon as `maxLen` bytes are there; truncation does not see it. */
  method JoinUpTo(text: Bytes, spans: seq<Span>, maxLen: nat) returns (r: Bytes)
    requires WithinText(text, spans)
    ensures r == Truncated(JoinLines(Slices(text, spans)), maxLen)
  {
    var extracted: Bytes := [];
    ghost var lines := Slices(text, spans);
    var i := 0;
    while i < |spans|
      invariant i <= |spans|
      invariant extracted == JoinLines(lines[..i])
    {
      ghost var before := lines[..i];
      assert lines[..i + 1] == before + [lines[i]];
      assert lines[..i + 1][..i] == before;
      if i > 0 {
        extracted := extracted + [LF];
      }
      extracted := extracted + text[spans[i].start..spans[i].end];
      i := i + 1;
      assert extracted == JoinLines(lines[..i]);
      if |extracted| >= maxLen {
        break;
      }
    }
    StopEarly(lines, i, maxLen);
    r := TruncateContent(extracted, maxLen);
  }

  lemma StopEarly(lines: seq<Bytes>, i: nat, maxLen: nat)
    requires i <= |lines| && (i < |lines| ==> i > 0 && |JoinLines(lines[..i])| >= maxLen)
    ensures Truncated(JoinLines(lines[..i]), maxLen) == Truncated(JoinLines(lines), maxLen)
  {
    if i == |lines| {
      assert lines[..i] == lines;
    } else {
      JoinOfPrefix(lines, i);
      var part, full := JoinLines(lines[..i]), JoinLines(lines);
      assert full[|part|] == LF;
      TruncatedOfEarlyCut(part, full, maxLen);
    }
  }
}
