/** Cypher text: escaping strings, stripping comments, and telling writes from reads. */
module CypherText {
  import opened Options

  predicate IsQuote(c: char) {
    c == '\'' || c == '"'
  }

  // ------------------------------------------------------------------
  // Escaping
  // ------------------------------------------------------------------

  function EscapedChar(c: char): string {
    if c == '\'' then "\\'"
    else if c == '"' then "\\\""
    else if c == '\\' then "\\\\"
    else if c == '\n' then "\\n"
    else if c == '\r' then "\\r"
    else if c == '\t' then "\\t"
    else if c == '\0' then ""
    else [c]
  }

  function Escaped(s: string): string {
    if s == [] then [] else EscapedChar(s[0]) + Escaped(s[1..])
  }

  method EscapeCypherString(s: string) returns (escaped: string)
    ensures escaped == Escaped(s)
  {
    escaped := [];
    assert s[0..] == s;
    for i := 0 to |s|
      invariant escaped + Escaped(s[i..]) == Escaped(s)
    {
      hide EscapedChar;
      assert s[i..][1..] == s[i + 1..];
      escaped := escaped + EscapedChar(s[i]);
    }
    assert s[|s|..] == [];
  }

  function UnescapedChar(c: char): char {
    if c == 'n' then '\n' else if c == 'r' then '\r' else if c == 't' then '\t' else c
  }

  /** Reading a literal's body back: a backslash takes the next character with it. */
  function Unescaped(t: string): string {
    if t == [] then []
    else if t[0] == '\\' && |t| > 1 then [UnescapedChar(t[1])] + Unescaped(t[2..])
    else [t[0]] + Unescaped(t[1..])
  }

  function WithoutNuls(s: string): string {
    if s == [] then [] else (if s[0] == '\0' then [] else [s[0]]) + WithoutNuls(s[1..])
  }

  lemma EscapedCharCases(c: char, rest: string)
    ensures c != '\0' ==> Unescaped(EscapedChar(c) + rest) == [c] + Unescaped(rest)
    ensures c == '\0' ==> EscapedChar(c) == []
    ensures EscapedChar(c) == [] || (|EscapedChar(c)| == 1 && EscapedChar(c)[0] != '\\' && !IsQuote(EscapedChar(c)[0]))
            || (|EscapedChar(c)| == 2 && EscapedChar(c)[0] == '\\')
  {
    var e := EscapedChar(c);
    if |e| == 1 { assert (e + rest)[1..] == rest; }
    if |e| == 2 { assert (e + rest)[2..] == rest; }
  }

  /** Unescaping gives the text back, its NULs apart. */
  lemma {:induction false} UnescapeInvertsEscape(s: string)
    ensures Unescaped(Escaped(s)) == WithoutNuls(s)
  {
    if s != [] {
      hide EscapedChar, Unescaped;
      UnescapeInvertsEscape(s[1..]);
      EscapedCharCases(s[0], Escaped(s[1..]));
      assert s[0] == '\0' ==> [] + Escaped(s[1..]) == Escaped(s[1..]);
      assert s[0] == '\0' ==> [] + WithoutNuls(s[1..]) == WithoutNuls(s[1..]);
    } else {
      assert Unescaped([]) == [];
    }
  }

  // ------------------------------------------------------------------
  // Stripping comments
  // ------------------------------------------------------------------

  /** From the line feed that ends a line comment, if there is one. */
  function AfterLine(q: string): (r: string)
    ensures |r| <= |q| && (r == [] || r[0] == '\n') && (r == q ==> q == [] || q[0] == '\n')
  {
    if q == [] || q[0] == '\n' then q else AfterLine(q[1..])
  }

  /** From behind the end of a block comment whose opening is already read. */
  function AfterBlock(q: string): (r: string)
    ensures |r| <= |q|
  {
    if |q| < 2 then [] else if q[0] == '*' && q[1] == '/' then q[2..] else AfterBlock(q[1..])
  }

  predicate BlockCloses(q: string) {
    |q| >= 2 && ((q[0] == '*' && q[1] == '/') || BlockCloses(q[1..]))
  }

  predicate StartsLine(q: string) {
    |q| > 1 && q[0] == '/' && q[1] == '/'
  }

  predicate StartsBlock(q: string) {
    |q| > 1 && q[0] == '/' && q[1] == '*'
  }

  /** The text without its comments; `inString` is the quote of the literal being read, if any. */
  function Stripped(q: string, inString: Option<char>): string
    decreases |q|
  {
    if q == [] then []
    else if inString.Some? then
      if q[0] == '\\' && |q| > 1 then q[..2] + Stripped(q[2..], inString)
      else [q[0]] + Stripped(q[1..], if q[0] == inString.value then None else inString)
    else if IsQuote(q[0]) then [q[0]] + Stripped(q[1..], Some(q[0]))
    else if StartsLine(q) then Stripped(AfterLine(q), None)
    else if StartsBlock(q) then Stripped(AfterBlock(q[2..]), None)
    else [q[0]] + Stripped(q[1..], None)
  }

  function From(q: string, i: nat): string {
    if i <= |q| then q[i..] else []
  }

  method SkipLine(query: string, start: nat) returns (i: nat)
    requires start < |query| && query[start] != '\n'
    ensures start < i <= |query| && From(query, i) == AfterLine(query[start..])
  {
    i := start;
    while i < |query| && query[i] != '\n'
      invariant start <= i <= |query| && AfterLine(query[i..]) == AfterLine(query[start..])
    {
      assert query[i..][1..] == query[i + 1..];
      i := i + 1;
    }
  }

  method SkipBlock(query: string, start: nat) returns (i: nat)
    requires start <= |query|
    ensures start < i && From(query, i) == AfterBlock(query[start..])
  {
    i := start;
    while i + 1 < |query| && !(query[i] == '*' && query[i + 1] == '/')
      invariant start <= i <= |query| && AfterBlock(query[i..]) == AfterBlock(query[start..])
    {
      assert query[i..][1..] == query[i + 1..];
      i := i + 1;
    }
    i := i + 2;
  }

  method StripCypherComments(query: string) returns (result: string)
    ensures result == Stripped(query, None)
  {
    hide *;
    result := [];
    var i: nat, inString: Option<char> := 0, None;
    NothingStripped(query);
    while i < |query|
      invariant result + Stripped(From(query, i), inString) == Stripped(query, None)
      decreases |query| - i
    {
      ghost var rest := query[i..];
      StrippedCases(query, i, inString);
      var c := query[i];
      if inString.Some? {
        if c == '\\' && i + 1 < |query| {
          result := result + [c] + [query[i + 1]];
          i := i + 2;
          continue;
        }
        result := result + [c];
        if c == inString.value {
          inString := None;
        }
        i := i + 1;
      } else if c == '\'' || c == '"' {
        inString := Some(c);
        result := result + [c];
        i := i + 1;
      } else if i + 1 < |query| && c == '/' && query[i + 1] == '/' {
        i := SkipLine(query, i);
      } else if i + 1 < |query| && c == '/' && query[i + 1] == '*' {
        i := SkipBlock(query, i + 2);
      } else {
        result := result + [c];
        i := i + 1;
      }
    }
    NothingMore(query, i, inString);
  }

  lemma NothingStripped(q: string)
    ensures [] + Stripped(From(q, 0), None) == Stripped(q, None)
  {
    assert q[0..] == q;
  }

  lemma NothingMore(q: string, i: nat, inString: Option<char>)
    requires i >= |q|
    ensures Stripped(From(q, i), inString) == []
  {
  }

  /** One turn of the loop, case by case. */
  lemma StrippedCases(query: string, i: nat, inString: Option<char>)
    requires i < |query|
    ensures From(query, i) == query[i..]
    ensures
      var c, rest := query[i], Stripped(query[i..], inString);
      if inString.Some? then
        if c == '\\' && i + 1 < |query| then rest == [c] + [query[i + 1]] + Stripped(From(query, i + 2), inString)
        else rest == [c] + Stripped(From(query, i + 1), if c == inString.value then None else inString)
      else if c == '\'' || c == '"' then rest == [c] + Stripped(From(query, i + 1), Some(c))
      else if i + 1 < |query| && c == '/' && query[i + 1] == '/' then rest == Stripped(AfterLine(query[i..]), None)
      else if i + 1 < |query| && c == '/' && query[i + 1] == '*' then rest == Stripped(AfterBlock(query[i + 2..]), None)
      else rest == [c] + Stripped(From(query, i + 1), None)
  {
    hide AfterLine, AfterBlock;
    var q := query[i..];
    assert q[1..] == query[i + 1..];
    if i + 1 < |query| {
      assert q[2..] == query[i + 2..];
      assert q[..2] == [query[i]] + [query[i + 1]];
    }
  }

  // ------------------------------------------------------------------
  // Composition
  // ------------------------------------------------------------------

  /** Reading `q` from this state ends in the normal state, outside literals and comments. */
  predicate EndsNormal(q: string, inString: Option<char>)
    decreases |q|
  {
    if q == [] then inString.None?
    else if inString.Some? then
      if q[0] == '\\' && |q| > 1 then EndsNormal(q[2..], inString)
      else EndsNormal(q[1..], if q[0] == inString.value then None else inString)
    else if IsQuote(q[0]) then EndsNormal(q[1..], Some(q[0]))
    else if StartsLine(q) then AfterLine(q) != [] && EndsNormal(AfterLine(q), None)
    else if StartsBlock(q) then BlockCloses(q[2..]) && EndsNormal(AfterBlock(q[2..]), None)
    else EndsNormal(q[1..], None)
  }

  lemma {:induction false} AfterLineConcat(q: string, r: string)
    requires AfterLine(q) != []
    ensures AfterLine(q + r) == AfterLine(q) + r
  {
    if q[0] != '\n' {
      assert (q + r)[1..] == q[1..] + r;
      AfterLineConcat(q[1..], r);
    }
  }

  lemma {:induction false} AfterBlockConcat(q: string, r: string)
    requires BlockCloses(q)
    ensures AfterBlock(q + r) == AfterBlock(q) + r
  {
    if q[0] == '*' && q[1] == '/' {
      assert (q + r)[2..] == q[2..] + r;
    } else {
      assert (q + r)[1..] == q[1..] + r;
      AfterBlockConcat(q[1..], r);
    }
  }

  /** Text that cannot turn a final slash into a comment. */
  predicate SafeAfterSlash(r: string) {
    r == [] || (r[0] != '/' && r[0] != '*')
  }

  predicate GoodQuote(inString: Option<char>) {
    inString.Some? ==> IsQuote(inString.value)
  }

  lemma Tails(q: string, r: string)
    requires q != []
    ensures (q + r)[0] == q[0] && (q + r)[1..] == q[1..] + r
    ensures |q| > 1 ==> (q + r)[2..] == q[2..] + r && (q + r)[..2] == q[..2]
  {
  }

  lemma CommentsOfConcat(q: string, r: string)
    requires q != [] && SafeAfterSlash(r)
    ensures StartsLine(q + r) == StartsLine(q) && StartsBlock(q + r) == StartsBlock(q)
  {
    if |q| == 1 && r != [] { assert (q + r)[1] == r[0]; }
  }

  /** Stripping distributes over a cut in the normal state. */
  lemma {:induction false} StripDistributes(q: string, r: string, inString: Option<char>)
    requires EndsNormal(q, inString) && SafeAfterSlash(r) && GoodQuote(inString)
    ensures Stripped(q + r, inString) == Stripped(q, inString) + Stripped(r, None)
    decreases |q|
  {
    if q == [] {
      assert q + r == r && Stripped(q, inString) + Stripped(r, None) == Stripped(r, None);
    } else if inString.Some? {
      hide Stripped, EndsNormal;
      DistributesInLiteral(q, r, inString);
    } else if StartsLine(q) || StartsBlock(q) {
      hide Stripped, EndsNormal;
      DistributesOverComment(q, r);
    } else {
      hide Stripped, EndsNormal;
      DistributesOverCode(q, r);
    }
  }

  lemma {:induction false} DistributesInLiteral(q: string, r: string, inString: Option<char>)
    requires inString.Some? && q != [] && EndsNormal(q, inString) && SafeAfterSlash(r) && GoodQuote(inString)
    ensures Stripped(q + r, inString) == Stripped(q, inString) + Stripped(r, None)
    decreases |q|, 0
  {
    Tails(q, r);
    if q[0] == '\\' && |q| > 1 {
      StripDistributes(q[2..], r, inString);
    } else {
      StripDistributes(q[1..], r, if q[0] == inString.value then None else inString);
    }
  }

  lemma {:induction false} DistributesOverComment(q: string, r: string)
    requires (StartsLine(q) || StartsBlock(q)) && EndsNormal(q, None) && SafeAfterSlash(r)
    ensures Stripped(q + r, None) == Stripped(q, None) + Stripped(r, None)
    decreases |q|, 0
  {
    Tails(q, r);
    CommentsOfConcat(q, r);
    if StartsLine(q) {
      AfterLineConcat(q, r);
      StripDistributes(AfterLine(q), r, None);
    } else {
      AfterBlockConcat(q[2..], r);
      StripDistributes(AfterBlock(q[2..]), r, None);
    }
  }

  lemma {:induction false} DistributesOverCode(q: string, r: string)
    requires q != [] && !StartsLine(q) && !StartsBlock(q) && EndsNormal(q, None) && SafeAfterSlash(r)
    ensures Stripped(q + r, None) == Stripped(q, None) + Stripped(r, None)
    decreases |q|, 0
  {
    hide SafeAfterSlash, StartsLine, StartsBlock, AfterLine, AfterBlock;
    Tails(q, r);
    CommentsOfConcat(q, r);
    StripDistributes(q[1..], r, if IsQuote(q[0]) then Some(q[0]) else None);
  }

  /** An escaped text between quotes, as embedded in a query. */
  function Literal(quote: char, s: string): string {
    [quote] + Escaped(s) + [quote]
  }

  /** Inside a literal, an escaped text is copied and the state stays. */
  lemma {:induction false} EscapedIsCopied(s: string, rest: string, quote: char)
    requires IsQuote(quote)
    ensures Stripped(Escaped(s) + rest, Some(quote)) == Escaped(s) + Stripped(rest, Some(quote))
  {
    hide Stripped, EscapedChar;
    if s == [] {
      assert Escaped(s) + rest == rest;
      assert Escaped(s) + Stripped(rest, Some(quote)) == Stripped(rest, Some(quote));
    } else {
      EscapedIsCopied(s[1..], rest, quote);
      EscapedCharIsCopied(s[0], Escaped(s[1..]) + rest, quote);
      assert Escaped(s) + rest == EscapedChar(s[0]) + (Escaped(s[1..]) + rest);
    }
  }

  lemma EscapedCharIsCopied(c: char, rest: string, quote: char)
    requires IsQuote(quote)
    ensures Stripped(EscapedChar(c) + rest, Some(quote)) == EscapedChar(c) + Stripped(rest, Some(quote))
  {
    EscapedCharCases(c, rest);
    hide EscapedChar;
    var e := EscapedChar(c);
    var t := e + rest;
    if |e| == 1 {
      assert t[1..] == rest && [t[0]] == e;
    } else if |e| == 2 {
      assert t[2..] == rest && t[..2] == e;
    } else {
      assert t == rest && e == [];
    }
  }

  /** An embedded escaped literal comes through verbatim and leaves the scanner in the
      normal state: stripping works on what stands before it and behind it separately. */
  lemma LiteralIsVerbatim(prefix: string, quote: char, s: string, suffix: string)
    requires EndsNormal(prefix, None) && IsQuote(quote)
    ensures Stripped(prefix + Literal(quote, s) + suffix, None)
         == Stripped(prefix, None) + Literal(quote, s) + Stripped(suffix, None)
  {
    hide Stripped, Escaped, EndsNormal;
    var rest := Escaped(s) + ([quote] + suffix);
    assert prefix + Literal(quote, s) + suffix == prefix + ([quote] + rest);
    StripDistributes(prefix, [quote] + rest, None);
    EscapedIsCopied(s, [quote] + suffix, quote);
    OpenQuote(quote, rest);
    CloseQuote(quote, suffix);
    assert Stripped(prefix, None) + ([quote] + (Escaped(s) + ([quote] + Stripped(suffix, None))))
        == Stripped(prefix, None) + Literal(quote, s) + Stripped(suffix, None);
  }

  lemma OpenQuote(quote: char, rest: string)
    requires IsQuote(quote)
    ensures Stripped([quote] + rest, None) == [quote] + Stripped(rest, Some(quote))
  {
    assert ([quote] + rest)[1..] == rest;
  }

  lemma CloseQuote(quote: char, rest: string)
    requires IsQuote(quote)
    ensures Stripped([quote] + rest, Some(quote)) == [quote] + Stripped(rest, None)
  {
    assert ([quote] + rest)[1..] == rest;
  }

  /** Stripping twice is stripping once. */
  lemma {:induction false} StripIsIdempotent(q: string, inString: Option<char>)
    requires GoodQuote(inString)
    ensures Stripped(Stripped(q, inString), inString) == Stripped(q, inString)
    decreases |q|
  {
    if q == [] {
    } else if inString.Some? {
      if q[0] == '\\' && |q| > 1 {
        StripIsIdempotent(q[2..], inString);
        CopiedPair(q[..2], Stripped(q[2..], inString), inString);
      } else {
        var next := if q[0] == inString.value then None else inString;
        StripIsIdempotent(q[1..], next);
        CopiedChar(q, Stripped(q[1..], next), inString);
      }
    } else if IsQuote(q[0]) {
      StripIsIdempotent(q[1..], Some(q[0]));
      OpenQuote(q[0], Stripped(q[1..], Some(q[0])));
    } else if StartsLine(q) {
      StripIsIdempotent(AfterLine(q), None);
    } else if StartsBlock(q) {
      StripIsIdempotent(AfterBlock(q[2..]), None);
    } else {
      StripIsIdempotent(q[1..], None);
      CodeStaysCode(q);
    }
  }

  lemma CopiedPair(pair: string, rest: string, inString: Option<char>)
    requires inString.Some? && |pair| == 2 && pair[0] == '\\'
    ensures Stripped(pair + rest, inString) == pair + Stripped(rest, inString)
  {
    assert (pair + rest)[2..] == rest && (pair + rest)[..2] == pair;
  }

  lemma CopiedChar(q: string, rest: string, inString: Option<char>)
    requires inString.Some? && GoodQuote(inString) && q != [] && (q[0] == '\\' ==> |q| == 1)
    requires var next := if q[0] == inString.value then None else inString; rest == Stripped(q[1..], next)
    ensures Stripped([q[0]] + rest, inString)
         == [q[0]] + Stripped(rest, if q[0] == inString.value then None else inString)
  {
    assert ([q[0]] + rest)[1..] == rest;
  }

  /** A character that starts no comment starts none in the stripped text. */
  lemma CodeStaysCode(q: string)
    requires q != [] && !IsQuote(q[0]) && !StartsLine(q) && !StartsBlock(q)
    ensures Stripped([q[0]] + Stripped(q[1..], None), None) == [q[0]] + Stripped(Stripped(q[1..], None), None)
  {
    var t := [q[0]] + Stripped(q[1..], None);
    assert t[1..] == Stripped(q[1..], None);
    if q[0] == '/' {
      FirstIsKept(q[1..]);
    }
  }

  lemma FirstIsKept(q: string)
    requires q != [] ==> q[0] != '/'
    ensures if q == [] then true else Stripped(q, None) != [] && Stripped(q, None)[0] == q[0]
  {
  }

  // ------------------------------------------------------------------
  // Write keywords
  // ------------------------------------------------------------------

  const WRITE_PATTERNS: seq<string> := ["CREATE", "DELETE", "SET", "MERGE", "DROP", "REMOVE", "DETACH", "ALTER"]

  /** Upper-casing goes character by character; one character may become several. */
  function UpperText(s: string, upper: char -> string): string {
    if s == [] then [] else upper(s[0]) + UpperText(s[1..], upper)
  }

  predicate LeftOk(text: string, pos: nat)
    requires pos <= |text|
  {
    pos == 0 || text[pos - 1] in " \n\t({;"
  }

  predicate RightOk(text: string, end: nat)
    requires end <= |text|
  {
    end == |text| || text[end] in " \n\t(){};"
  }

  predicate OccursAt(text: string, pattern: string, pos: nat) {
    pos + |pattern| <= |text| && text[pos..pos + |pattern|] == pattern
  }

  predicate WordAt(text: string, pattern: string, pos: nat) {
    OccursAt(text, pattern, pos) && LeftOk(text, pos) && RightOk(text, pos + |pattern|)
  }

  ghost predicate HasWord(text: string, pattern: string) {
    exists pos: nat :: WordAt(text, pattern, pos)
  }

  /** The comment-free, upper-cased query holds a write keyword as a whole word. */
  ghost predicate IsWrite(query: string, upper: char -> string) {
    exists k :: 0 <= k < |WRITE_PATTERNS| && HasWord(UpperText(Stripped(query, None), upper), WRITE_PATTERNS[k])
  }

  /** The first occurrence at or after `start`. */
  method Find(text: string, pattern: string, start: nat) returns (pos: Option<nat>)
    ensures pos.Some? ==> start <= pos.value && OccursAt(text, pattern, pos.value)
    ensures forall p: nat | start <= p && (pos.Some? ==> p < pos.value) :: !OccursAt(text, pattern, p)
  {
    var i := start;
    while i + |pattern| <= |text|
      invariant start <= i
      invariant forall p: nat | start <= p < i :: !OccursAt(text, pattern, p)
    {
      if text[i..i + |pattern|] == pattern {
        return Some(i);
      }
      i := i + 1;
    }
    pos := None;
  }

  method FindWord(text: string, pattern: string) returns (found: bool)
    requires pattern != []
    ensures found <==> HasWord(text, pattern)
  {
    hide OccursAt;
    var searchStart: nat := 0;
    var offset := Find(text, pattern, searchStart);
    while offset.Some?
      invariant offset.Some? ==> OccursAt(text, pattern, offset.value) && offset.value >= searchStart
      invariant forall p: nat | searchStart <= p && (offset.Some? ==> p < offset.value) :: !OccursAt(text, pattern, p)
      invariant forall p: nat | p < searchStart :: !WordAt(text, pattern, p)
      decreases if offset.Some? then |text| + 1 - offset.value else 0
    {
      var pos := offset.value;
      OccursWithin(text, pattern, pos);
      searchStart := pos + 1;
      if LeftOk(text, pos) && RightOk(text, pos + |pattern|) {
        assert WordAt(text, pattern, pos);
        return true;
      }
      offset := Find(text, pattern, searchStart);
      if offset.Some? { OccursWithin(text, pattern, offset.value); }
    }
    found := false;
  }

  lemma OccursWithin(text: string, pattern: string, pos: nat)
    requires OccursAt(text, pattern, pos)
    ensures pos + |pattern| <= |text|
  {
  }

  method IsWriteQuery(query: string, upper: char -> string) returns (r: bool)
    ensures r <==> IsWrite(query, upper)
  {
    hide Stripped, UpperText, HasWord;
    var cleaned := StripCypherComments(query);
    var text := UpperText(cleaned, upper);
    for k := 0 to |WRITE_PATTERNS|
      invariant forall j | 0 <= j < k :: !HasWord(text, WRITE_PATTERNS[j])
    {
      assert WRITE_PATTERNS[k] != [];
      var found := FindWord(text, WRITE_PATTERNS[k]);
      if found {
        return true;
      }
    }
    r := false;
  }

  lemma {:induction false} UpperTextConcat(a: string, b: string, upper: char -> string)
    ensures UpperText(a + b, upper) == UpperText(a, upper) + UpperText(b, upper)
  {
    if a == [] {
      assert a + b == b;
    } else {
      assert (a + b)[1..] == a[1..] + b;
      UpperTextConcat(a[1..], b, upper);
    }
  }

  /** A word whose right neighbour is in the text. */
  ghost predicate HasWordBeforeEnd(text: string, pattern: string) {
    exists pos: nat :: pos + |pattern| < |text| && WordAt(text, pattern, pos)
  }

  /** A word whose left neighbour is in the text. */
  ghost predicate HasWordAfterStart(text: string, pattern: string) {
    exists pos: nat :: 0 < pos && WordAt(text, pattern, pos)
  }

  lemma WordStaysBefore(text: string, after: string, pattern: string)
    requires HasWordBeforeEnd(text, pattern)
    ensures HasWord(text + after, pattern)
  {
    var pos: nat :| pos + |pattern| < |text| && WordAt(text, pattern, pos);
    var whole := text + after;
    assert whole[pos..pos + |pattern|] == text[pos..pos + |pattern|];
    assert WordAt(whole, pattern, pos);
  }

  lemma WordStaysBehind(before: string, text: string, pattern: string)
    requires HasWordAfterStart(text, pattern)
    ensures HasWord(before + text, pattern)
  {
    var pos: nat :| 0 < pos && WordAt(text, pattern, pos);
    var whole, p := before + text, |before| + pos;
    assert whole[p..p + |pattern|] == text[pos..pos + |pattern|];
    assert WordAt(whole, pattern, p);
  }

  /** No embedded literal hides a write keyword that stands as a word in the query before it or behind it:
      at the start of the query, at its end, or in between. Only a keyword that touches the literal itself is
      left out, since the quote bounds no word. */
  lemma LiteralHidesNoWrite(prefix: string, quote: char, s: string, suffix: string, upper: char -> string, k: nat)
    requires EndsNormal(prefix, None) && IsQuote(quote) && k < |WRITE_PATTERNS|
    requires HasWordBeforeEnd(UpperText(Stripped(prefix, None), upper), WRITE_PATTERNS[k])
          || HasWordAfterStart(UpperText(Stripped(suffix, None), upper), WRITE_PATTERNS[k])
    ensures IsWrite(prefix + Literal(quote, s) + suffix, upper)
  {
    hide Stripped, UpperText, WordAt, EndsNormal, Literal, HasWord, HasWordBeforeEnd, HasWordAfterStart;
    LiteralIsVerbatim(prefix, quote, s, suffix);
    var p, l, r := Stripped(prefix, None), Literal(quote, s), Stripped(suffix, None);
    var up, ul, ur := UpperText(p, upper), UpperText(l, upper), UpperText(r, upper);
    UpperTextConcat(p + l, r, upper);
    UpperTextConcat(p, l, upper);
    if HasWordBeforeEnd(up, WRITE_PATTERNS[k]) {
      WordStaysBefore(up, ul + ur, WRITE_PATTERNS[k]);
      assert up + (ul + ur) == up + ul + ur;
    } else {
      WordStaysBehind(up + ul, ur, WRITE_PATTERNS[k]);
    }
  }
}
