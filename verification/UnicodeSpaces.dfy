/** Replacing Unicode spaces by plain blanks in what the scan takes for plain text: the text outside quotes, dollar
    quotes and line comments, up to some dollar signs. Text is a sequence of bytes, written as characters. */
module UnicodeSpaces {
  datatype UnicodeSpace = UnicodeSpace(pos: nat, bytes: nat)

  predicate IsTagFirst(c: char) {
    'A' <= c <= 'Z' || 'a' <= c <= 'z' || c >= '\U{80}'
  }

  predicate IsTagSubsequent(c: char) {
    IsTagFirst(c) || '0' <= c <= '9'
  }

  /** The length of the Unicode space encoded at `i`, or 0. */
  function SpaceLength(q: string, i: nat): (n: nat)
    requires i + 2 < |q|
  {
    if q[i] == '\U{C2}' && q[i + 1] == '\U{A0}' then 2
    else if q[i] == '\U{E2}' && q[i + 1] == '\U{80}' && ('\U{80}' <= q[i + 2] <= '\U{8B}' || q[i + 2] == '\U{AF}')
    then 3
    else if q[i] == '\U{E2}' && q[i + 1] == '\U{81}' && (q[i + 2] == '\U{9F}' || q[i + 2] == '\U{A0}') then 3
    else if q[i] == '\U{E3}' && q[i + 1] == '\U{80}' && q[i + 2] == '\U{80}' then 3
    else if q[i] == '\U{EF}' && q[i + 1] == '\U{BB}' && q[i + 2] == '\U{BF}' then 3
    else 0
  }

  /** No-break space, the spaces of general punctuation and their joiners, and the ideographic one. */
  predicate IsUnicodeSpace(codePoint: nat) {
    || codePoint == 0xA0 || 0x2000 <= codePoint <= 0x200B || codePoint == 0x202F || codePoint == 0x205F
    || codePoint == 0x2060 || codePoint == 0x3000 || codePoint == 0xFEFF
  }

  /** The bytes of a code point of the basic plane, as UTF-8 has them. */
  function Utf8(codePoint: nat): string
    requires codePoint < 0x1_0000
  {
    if codePoint < 0x80 then [codePoint as char]
    else if codePoint < 0x800 then [(0xC0 + codePoint / 64) as char, (0x80 + codePoint % 64) as char]
    else [(0xE0 + codePoint / 4096) as char, (0x80 + codePoint / 64 % 64) as char, (0x80 + codePoint % 64) as char]
  }

  ghost predicate IsEncodedAt(q: string, i: nat, n: nat, codePoint: nat) {
    IsUnicodeSpace(codePoint) && n == |Utf8(codePoint)| && i + n <= |q| && q[i..i + n] == Utf8(codePoint)
  }

  lemma SpaceIsEncoded(q: string, i: nat) returns (codePoint: nat)
    requires i + 2 < |q| && SpaceLength(q, i) > 0
    ensures IsEncodedAt(q, i, SpaceLength(q, i), codePoint)
  {
    var n := SpaceLength(q, i);
    var last := q[i + n - 1] as int - 0x80;
    codePoint :=
      if n == 2 then 0xA0
      else if q[i] == '\U{E2}' then (if q[i + 1] == '\U{80}' then 0x2000 else 0x2040) + last
      else if q[i] == '\U{E3}' then 0x3000
      else 0xFEFF;
    BytesOf(codePoint);
    hide Utf8;
    assert q[i..i + 2] == [q[i], q[i + 1]] && q[i..i + 3] == [q[i], q[i + 1], q[i + 2]];
  }

  lemma EncodedIsSpace(q: string, i: nat, n: nat, codePoint: nat)
    requires i + 2 < |q| && IsEncodedAt(q, i, n, codePoint)
    ensures SpaceLength(q, i) == n
  {
    BytesOf(codePoint);
    hide Utf8;
    var bytes := Utf8(codePoint);
    assert bytes == q[i..i + n];
    assert q[i] == bytes[0] && q[i + 1] == bytes[1];
    assert n == 3 ==> q[i + 2] == bytes[2];
  }

  /** The byte patterns are just the encodings of the Unicode spaces. */
  lemma SpacesAreEncodings(q: string, i: nat, n: nat)
    requires i + 2 < |q| && n > 0
    ensures SpaceLength(q, i) == n <==> exists codePoint :: IsEncodedAt(q, i, n, codePoint)
  {
    hide SpaceLength, IsEncodedAt;
    if SpaceLength(q, i) == n {
      var codePoint := SpaceIsEncoded(q, i);
    }
    if codePoint :| IsEncodedAt(q, i, n, codePoint) {
      EncodedIsSpace(q, i, n, codePoint);
    }
  }

  lemma BytesOf(codePoint: nat)
    requires IsUnicodeSpace(codePoint)
    ensures Utf8(codePoint) ==
      if codePoint == 0xA0 then "\U{C2}\U{A0}"
      else if codePoint <= 0x200B then ['\U{E2}', '\U{80}', (0x80 + codePoint - 0x2000) as char]
      else if codePoint == 0x202F then "\U{E2}\U{80}\U{AF}"
      else if codePoint == 0x205F then "\U{E2}\U{81}\U{9F}"
      else if codePoint == 0x2060 then "\U{E2}\U{81}\U{A0}"
      else if codePoint == 0x3000 then "\U{E3}\U{80}\U{80}"
      else "\U{EF}\U{BB}\U{BF}"
  {
  }

  // ---------- where plain text goes on ----------

  /** Behind the closing quote, or the end. */
  function AfterQuotes(q: string, i: nat, quote: char): (e: nat)
    requires i <= |q|
    ensures i <= e <= |q|
    decreases |q| - i
  {
    if i + 1 >= |q| then |q|
    else if q[i] != quote then AfterQuotes(q, i + 1, quote)
    else if q[i + 1] == quote then AfterQuotes(q, i + 2, quote)
    else i + 1
  }

  predicate ClosesTag(q: string, i: nat, tag: string)
    requires i < |q|
  {
    && q[i] == '$' && i + |tag| + 2 <= |q|
    && q[i + |tag| + 1] == '$' && q[i + 1..i + 1 + |tag|] == tag
  }

  /** On the last `$` of the closing marker, or the end. */
  function AfterDollars(q: string, i: nat, tag: string): (e: nat)
    requires i <= |q|
    ensures i <= e <= |q| && (e == i ==> e == |q|)
    decreases |q| - i
  {
    if i + 2 >= |q| then |q|
    else if ClosesTag(q, i, tag) then i + |tag| + 1
    else AfterDollars(q, i + 1, tag)
  }

  /** Where plain text goes on when a dollar-quoted string may start before `start`, its tag read up to `i`. */
  function AfterTag(q: string, start: nat, i: nat): (e: nat)
    requires start <= i <= |q|
    ensures i <= e <= |q|
    decreases |q| - i
  {
    if i + 2 >= |q| then |q|
    else if q[i] == '$' then AfterDollars(q, i, q[start..i])
    else if !IsTagSubsequent(q[i]) then i
    else AfterTag(q, start, i + 1)
  }

  function AfterComment(q: string, i: nat): (e: nat)
    requires i <= |q|
    ensures i <= e <= |q| && (e < |q| ==> q[e] == '\n' || q[e] == '\r')
    ensures forall k :: i <= k < e ==> q[k] != '\n' && q[k] != '\r'
    decreases |q| - i
  {
    if i == |q| || q[i] == '\n' || q[i] == '\r' then i else AfterComment(q, i + 1)
  }

  predicate OpensDollars(q: string, i: nat)
    requires i + 2 < |q|
  {
    q[i] == '$' && (q[i + 1] == '$' || IsTagFirst(q[i + 1]))
  }

  /** The next place of plain text after `i`. */
  function Following(q: string, i: nat): (e: nat)
    requires i + 2 < |q|
    ensures i < e <= |q|
  {
    if q[i] == '"' || q[i] == '\'' then AfterQuotes(q, i + 1, q[i])
    else if OpensDollars(q, i) then AfterTag(q, i + 1, i + 1)
    else if q[i] == '-' && q[i + 1] == '-' then AfterComment(q, i)
    else i + 1
  }

  function SpacesAt(q: string, i: nat): seq<UnicodeSpace>
    requires i + 2 < |q|
  {
    if SpaceLength(q, i) > 0 then [UnicodeSpace(i, SpaceLength(q, i))] else []
  }

  /** The Unicode spaces of the plain text from `i` on. */
  function Spaces(q: string, i: nat): seq<UnicodeSpace>
    requires i <= |q|
    decreases |q| - i
  {
    if i + 2 >= |q| then [] else SpacesAt(q, i) + Spaces(q, Following(q, i))
  }

  /** The place `p` is plain text for a scan that is plain at `i`. */
  predicate IsPlain(q: string, i: nat, p: nat)
    requires i <= |q|
    decreases |q| - i
  {
    i == p || (i + 2 < |q| && IsPlain(q, Following(q, i), p))
  }

  // ---------- what is found ----------

  ghost predicate AreSpans(q: string, from: nat, spaces: seq<UnicodeSpace>) {
    && (forall k :: 0 <= k < |spaces| ==>
      var s := spaces[k];
      from <= s.pos && s.pos + 2 < |q| && s.bytes == SpaceLength(q, s.pos) > 0)
    && (forall j, k :: 0 <= j < k < |spaces| ==> spaces[j].pos + spaces[j].bytes <= spaces[k].pos)
  }

  ghost predicate AllFrom(spaces: seq<UnicodeSpace>, i: nat) {
    forall k :: 0 <= k < |spaces| ==> i <= spaces[k].pos
  }

  lemma {:induction false} StartOfSpaces(q: string, i: nat)
    requires i <= |q|
    ensures AllFrom(Spaces(q, i), i)
    decreases |q| - i
  {
    if i + 2 < |q| {
      StartOfSpaces(q, Following(q, i));
    }
  }

  /** Inside a space no other space starts, and plain text goes on byte by byte. */
  lemma InsideSpace(q: string, i: nat)
    requires i + 2 < |q| && SpaceLength(q, i) > 0
    ensures forall j :: i <= j < i + SpaceLength(q, i) && j + 2 < |q| ==>
      (j > i ==> SpaceLength(q, j) == 0) && Following(q, j) == j + 1
  {
  }

  lemma BehindSpace(q: string, i: nat)
    requires i + 2 < |q| && SpaceLength(q, i) > 0
    ensures AllFrom(Spaces(q, i + 1), i + SpaceLength(q, i))
  {
    var n := SpaceLength(q, i);
    assert n == 2 || n == 3;
    hide SpaceLength, Following;
    InsideSpace(q, i);
    if i + 3 < |q| {
      assert SpaceLength(q, i + 1) == 0 && Following(q, i + 1) == i + 2;
      StartOfSpaces(q, i + 2);
      if n == 3 && i + 4 < |q| {
        assert SpaceLength(q, i + 2) == 0 && Following(q, i + 2) == i + 3;
        StartOfSpaces(q, i + 3);
      }
    }
  }

  /** The spaces found are encoded where they are said to be, within the text, in order and apart. */
  lemma {:induction false} SpacesAreSpans(q: string, i: nat)
    requires i <= |q|
    ensures AreSpans(q, i, Spaces(q, i))
    decreases |q| - i
  {
    hide SpaceLength, Following;
    if i + 2 < |q| {
      var rest := Spaces(q, Following(q, i));
      SpacesAreSpans(q, Following(q, i));
      var all := Spaces(q, i);
      if SpaceLength(q, i) > 0 {
        InsideSpace(q, i);
        BehindSpace(q, i);
        forall k | 1 <= k < |all| ensures all[k] == rest[k - 1] {
        }
      }
    }
  }

  ghost predicate Finds(spaces: seq<UnicodeSpace>, p: nat) {
    exists k :: 0 <= k < |spaces| && spaces[k].pos == p
  }

  /** A space is found just where one is encoded in plain text, at least two bytes before the last. */
  lemma {:induction false} FoundExactly(q: string, i: nat, p: nat)
    requires i <= |q|
    ensures Finds(Spaces(q, i), p) <==> (p + 2 < |q| && IsPlain(q, i, p) && SpaceLength(q, p) > 0)
    decreases |q| - i
  {
    hide SpaceLength, Following;
    if i + 2 < |q| {
      var next := Following(q, i);
      FoundExactly(q, next, p);
      StartOfSpaces(q, next);
      PlainIsBehind(q, next, p);
      var all, here, rest := Spaces(q, i), SpacesAt(q, i), Spaces(q, next);
      if Finds(rest, p) {
        var k :| 0 <= k < |rest| && rest[k].pos == p;
        assert all[|here| + k] == rest[k];
      }
      if p == i && SpaceLength(q, i) > 0 {
        assert all[0].pos == p;
      }
    }
  }

  lemma {:induction false} PlainIsBehind(q: string, i: nat, p: nat)
    requires i <= |q|
    ensures IsPlain(q, i, p) ==> i <= p
    decreases |q| - i
  {
    if i + 2 < |q| {
      PlainIsBehind(q, Following(q, i), p);
    }
  }

  // ---------- the rebuilt text ----------

  /** The text from `from` on with a blank for each of the spaces. */
  function Rebuilt(q: string, from: nat, spaces: seq<UnicodeSpace>): string
    requires from <= |q| && AreSpans(q, from, spaces)
    decreases |spaces|
  {
    if spaces == [] then q[from..]
    else q[from..spaces[0].pos] + " " + Rebuilt(q, spaces[0].pos + spaces[0].bytes, spaces[1..])
  }

  /** By how much the spaces before `i` move the text at `i` to the left. */
  function Shift(spaces: seq<UnicodeSpace>, i: nat): int {
    if spaces == [] then 0 else (if spaces[0].pos < i then spaces[0].bytes - 1 else 0) + Shift(spaces[1..], i)
  }

  ghost predicate IsCovered(spaces: seq<UnicodeSpace>, i: nat) {
    exists k :: 0 <= k < |spaces| && spaces[k].pos <= i < spaces[k].pos + spaces[k].bytes
  }

  lemma {:induction false} NoShift(q: string, from: nat, spaces: seq<UnicodeSpace>, i: nat)
    requires AreSpans(q, from, spaces) && i <= from
    ensures Shift(spaces, i) == 0
    decreases |spaces|
  {
    if spaces != [] {
      NoShift(q, from, spaces[1..], i);
    }
  }

  lemma TailSpans(q: string, from: nat, spaces: seq<UnicodeSpace>)
    requires AreSpans(q, from, spaces) && spaces != []
    ensures AreSpans(q, spaces[0].pos + spaces[0].bytes, spaces[1..])
    ensures spaces[0].pos + spaces[0].bytes <= |q|
  {
    assert SpaceLength(q, spaces[0].pos) <= 3;
    hide SpaceLength;
    forall k | 1 <= k < |spaces| ensures spaces[0].pos + spaces[0].bytes <= spaces[k].pos {
    }
  }

  /** The byte at `i` is where it should be in `t`. */
  ghost predicate KeepsByte(q: string, from: nat, spaces: seq<UnicodeSpace>, t: string, i: nat)
    requires i < |q|
  {
    var j := i - from - Shift(spaces, i);
    0 <= j < |t| && t[j] == q[i]
  }

  /** There is a blank for the `k`th space. */
  ghost predicate HasBlank(from: nat, spaces: seq<UnicodeSpace>, t: string, k: nat)
    requires k < |spaces|
  {
    var j := spaces[k].pos - from - Shift(spaces, spaces[k].pos);
    0 <= j < |t| && t[j] == ' '
  }

  ghost predicate IsRebuilt(q: string, from: nat, spaces: seq<UnicodeSpace>, t: string) {
    && |t| == |q| - from - Shift(spaces, |q|)
    && (forall i :: from <= i < |q| && !IsCovered(spaces, i) ==> KeepsByte(q, from, spaces, t, i))
    && (forall k :: 0 <= k < |spaces| ==> HasBlank(from, spaces, t, k))
  }

  lemma RebuiltNothing(q: string, from: nat)
    requires from <= |q|
    ensures IsRebuilt(q, from, [], Rebuilt(q, from, []))
  {
  }

  /** Every byte that is not part of a space stays, moved to the left by what the spaces before it lose; every space
      is one blank; and there is nothing else. */
  lemma {:induction false} RebuiltIsRight(q: string, from: nat, spaces: seq<UnicodeSpace>)
    requires from <= |q| && AreSpans(q, from, spaces)
    ensures IsRebuilt(q, from, spaces, Rebuilt(q, from, spaces))
    decreases |spaces|
  {
    hide Shift, KeepsByte, HasBlank, AreSpans, IsCovered;
    if spaces == [] {
      RebuiltNothing(q, from);
    } else {
      TailSpans(q, from, spaces);
      RebuiltIsRight(q, spaces[0].pos + spaces[0].bytes, spaces[1..]);
      RebuiltLength(q, from, spaces);
      forall i | from <= i < |q| && !IsCovered(spaces, i)
        ensures KeepsByte(q, from, spaces, Rebuilt(q, from, spaces), i)
      {
        UncoveredByte(q, from, spaces, i);
      }
      forall k | 0 <= k < |spaces| ensures HasBlank(from, spaces, Rebuilt(q, from, spaces), k) {
        BlankForSpace(q, from, spaces, k);
      }
    }
  }

  ghost predicate TailIsRebuilt(q: string, from: nat, spaces: seq<UnicodeSpace>) {
    && from <= |q| && AreSpans(q, from, spaces) && spaces != []
    && var next := spaces[0].pos + spaces[0].bytes;
    && next <= |q| && AreSpans(q, next, spaces[1..]) && IsRebuilt(q, next, spaces[1..], Rebuilt(q, next, spaces[1..]))
  }

  lemma RebuiltLength(q: string, from: nat, spaces: seq<UnicodeSpace>)
    requires TailIsRebuilt(q, from, spaces)
    ensures |Rebuilt(q, from, spaces)| == |q| - from - Shift(spaces, |q|)
  {
    hide SpaceLength;
  }

  lemma UncoveredTail(spaces: seq<UnicodeSpace>, i: nat)
    requires spaces != [] && IsCovered(spaces[1..], i)
    ensures IsCovered(spaces, i)
  {
    var k :| 0 <= k < |spaces[1..]| && spaces[1..][k].pos <= i < spaces[1..][k].pos + spaces[1..][k].bytes;
    assert spaces[k + 1] == spaces[1..][k];
  }

  lemma UncoveredByte(q: string, from: nat, spaces: seq<UnicodeSpace>, i: nat)
    requires TailIsRebuilt(q, from, spaces) && from <= i < |q| && !IsCovered(spaces, i)
    ensures KeepsByte(q, from, spaces, Rebuilt(q, from, spaces), i)
  {
    hide SpaceLength;
    var s := spaces[0];
    var next := s.pos + s.bytes;
    if i < s.pos {
      NoShift(q, s.pos, spaces, i);
    } else {
      assert i >= next;
      if IsCovered(spaces[1..], i) {
        UncoveredTail(spaces, i);
      } else {
        assert KeepsByte(q, next, spaces[1..], Rebuilt(q, next, spaces[1..]), i);
      }
    }
  }

  lemma BlankForSpace(q: string, from: nat, spaces: seq<UnicodeSpace>, k: nat)
    requires TailIsRebuilt(q, from, spaces) && k < |spaces|
    ensures HasBlank(from, spaces, Rebuilt(q, from, spaces), k)
  {
    hide SpaceLength;
    var s := spaces[0];
    var next := s.pos + s.bytes;
    if k == 0 {
      NoShift(q, s.pos, spaces, s.pos);
    } else {
      assert spaces[k] == spaces[1..][k - 1];
      assert HasBlank(next, spaces[1..], Rebuilt(q, next, spaces[1..]), k - 1);
    }
  }

  // ---------- the program ----------

  lemma ConcatAssociates(a: string, b: string, c: string, d: string)
    ensures a + (b + c + d) == a + b + c + d
  {
  }

  /** The text up to `from`, behind the first `k` spaces, has been rebuilt. */
  ghost predicate IsCopied(q: string, spaces: seq<UnicodeSpace>, k: nat, from: nat, done: string)
    requires AreSpans(q, 0, spaces)
  {
    && k <= |spaces| && from <= |q| && AreSpans(q, from, spaces[k..])
    && Rebuilt(q, 0, spaces) == done + Rebuilt(q, from, spaces[k..])
  }

  lemma CopyStarts(q: string, spaces: seq<UnicodeSpace>)
    requires AreSpans(q, 0, spaces)
    ensures IsCopied(q, spaces, 0, 0, "")
  {
    assert spaces[0..] == spaces;
    assert "" + Rebuilt(q, 0, spaces) == Rebuilt(q, 0, spaces);
  }

  lemma CopyGoesOn(q: string, spaces: seq<UnicodeSpace>, k: nat, from: nat, done: string)
    requires AreSpans(q, 0, spaces) && IsCopied(q, spaces, k, from, done) && k < |spaces|
    ensures var s := spaces[k];
      && from <= s.pos && s.pos + s.bytes <= |q|
      && IsCopied(q, spaces, k + 1, s.pos + s.bytes, done + q[from..s.pos] + " ")
  {
    hide SpaceLength;
    var rest := spaces[k..];
    assert rest[0] == spaces[k] && rest[1..] == spaces[k + 1..];
    TailSpans(q, from, rest);
    ConcatAssociates(done, q[from..rest[0].pos], " ", Rebuilt(q, rest[0].pos + rest[0].bytes, rest[1..]));
  }

  lemma CopyEnds(q: string, spaces: seq<UnicodeSpace>, from: nat, done: string)
    requires AreSpans(q, 0, spaces) && IsCopied(q, spaces, |spaces|, from, done)
    ensures from <= |q| && Rebuilt(q, 0, spaces) == done + q[from..]
  {
    assert spaces[|spaces|..] == [];
  }

  method ReplaceUnicodeSpaces(query: string, unicodeSpaces: seq<UnicodeSpace>) returns (found: bool, newQuery: string)
    requires AreSpans(query, 0, unicodeSpaces)
    ensures found <==> unicodeSpaces != []
    ensures newQuery == if found then Rebuilt(query, 0, unicodeSpaces) else ""
  {
    hide AreSpans, Rebuilt, IsCopied;
    newQuery := "";
    if unicodeSpaces == [] {
      return false, newQuery;
    }
    var prev: nat := 0;
    CopyStarts(query, unicodeSpaces);
    for k := 0 to |unicodeSpaces|
      invariant IsCopied(query, unicodeSpaces, k, prev, newQuery)
    {
      var usp := unicodeSpaces[k];
      CopyGoesOn(query, unicodeSpaces, k, prev, newQuery);
      newQuery := newQuery + query[prev..usp.pos];
      newQuery := newQuery + " ";
      prev := usp.pos + usp.bytes;
    }
    CopyEnds(query, unicodeSpaces, prev, newQuery);
    newQuery := newQuery + query[prev..];
    found := true;
  }

  datatype Label = Regular | InQuotes(quote: char) | InDollarQuotes(tag: string) | InComment | End

  /** The spaces still to be found from a place in one of the loops. */
  ghost function Rest(q: string, at: Label, pos: nat): seq<UnicodeSpace>
    requires pos <= |q|
  {
    match at
    case Regular => Spaces(q, pos)
    case InQuotes(quote) => Spaces(q, AfterQuotes(q, pos, quote))
    case InDollarQuotes(tag) => Spaces(q, AfterDollars(q, pos, tag))
    case InComment => Spaces(q, AfterComment(q, pos))
    case End => []
  }

  method InQuotesLoop(q: string, start: nat, quote: char) returns (at: Label, pos: nat)
    requires start <= |q|
    ensures start <= pos <= |q| && Rest(q, at, pos) == Rest(q, InQuotes(quote), start)
    ensures at.End? || (at.Regular? && start < pos)
  {
    pos := start;
    while pos + 1 < |q|
      invariant start <= pos <= |q| && AfterQuotes(q, pos, quote) == AfterQuotes(q, start, quote)
    {
      if q[pos] == quote {
        if q[pos + 1] == quote {
          pos := pos + 1;
        } else {
          pos := pos + 1;
          return Regular, pos;
        }
      }
      pos := pos + 1;
    }
    at := End;
  }

  method InDollarQuotesLoop(q: string, start: nat, tag: string) returns (at: Label, pos: nat)
    requires start <= |q|
    ensures start <= pos <= |q| && Rest(q, at, pos) == Rest(q, InDollarQuotes(tag), start)
    ensures at.End? || (at.Regular? && start < pos)
  {
    pos := start;
    while pos + 2 < |q|
      invariant start <= pos <= |q| && AfterDollars(q, pos, tag) == AfterDollars(q, start, tag)
    {
      if q[pos] == '$' && |q| - (pos + 1) >= |tag| + 1 && q[pos + |tag| + 1] == '$' &&
         q[pos + 1..pos + 1 + |tag|] == tag {
        pos := pos + |tag| + 1;
        return Regular, pos;
      }
      pos := pos + 1;
    }
    at := End;
  }

  method InCommentLoop(q: string, start: nat) returns (at: Label, pos: nat)
    requires start < |q| && q[start] == '-'
    ensures start <= pos <= |q| && Rest(q, at, pos) == Rest(q, InComment, start)
    ensures at.End? || (at.Regular? && start < pos)
  {
    pos := start;
    while pos < |q|
      invariant start <= pos <= |q| && AfterComment(q, pos) == AfterComment(q, start)
    {
      if q[pos] == '\n' || q[pos] == '\r' {
        return Regular, pos;
      }
      pos := pos + 1;
    }
    at := End;
  }

  /** The tag of a dollar-quoted string, if one starts before `start`. */
  method TagLoop(q: string, start: nat) returns (at: Label, pos: nat)
    requires start <= |q|
    ensures start <= pos <= |q| && Rest(q, at, pos) == Spaces(q, AfterTag(q, start, start))
    ensures at.End? || at.Regular? || at.InDollarQuotes?
  {
    pos := start;
    while pos + 2 < |q|
      invariant start <= pos <= |q| && AfterTag(q, start, pos) == AfterTag(q, start, start)
    {
      if q[pos] == '$' {
        return InDollarQuotes(q[start..pos]), pos;
      }
      if !IsTagSubsequent(q[pos]) {
        return Regular, pos;
      }
      pos := pos + 1;
    }
    at := End;
  }

  /** The spaces from `start` on are those found and those still to be found. */
  ghost predicate IsSplit(q: string, start: nat, found: seq<UnicodeSpace>, pos: nat)
    requires start <= |q| && pos <= |q|
  {
    Spaces(q, start) == found + Spaces(q, pos)
  }

  lemma NoSpacesAtEnd(q: string, pos: nat)
    requires pos <= |q| <= pos + 2
    ensures Spaces(q, pos) == []
  {
  }

  lemma SplitGoesOn(q: string, start: nat, found: seq<UnicodeSpace>, pos: nat)
    requires start <= |q| && pos + 2 < |q| && IsSplit(q, start, found, pos)
    ensures IsSplit(q, start, found + SpacesAt(q, pos), Following(q, pos))
  {
    hide Following, SpacesAt;
  }

  method RegularLoop(q: string, start: nat) returns (at: Label, pos: nat, found: seq<UnicodeSpace>)
    requires start <= |q|
    ensures start <= pos <= |q| && Spaces(q, start) == found + Rest(q, at, pos)
    ensures at == End || start < pos || (at == InComment && start == pos)
    ensures at == InComment ==> pos < |q| && q[pos] == '-'
  {
    hide Following, SpacesAt, Spaces, AfterQuotes, AfterTag, AfterDollars, AfterComment;
    pos, found := start, [];
    while pos + 2 < |q|
      invariant start <= pos <= |q| && IsSplit(q, start, found, pos)
    {
      var spaces := Recorded(q, pos);
      SplitGoesOn(q, start, found, pos);
      found := found + spaces;
      NextPlace(q, pos);
      if q[pos] == '"' || q[pos] == '\'' {
        return InQuotes(q[pos]), pos + 1, found;
      } else if q[pos] == '$' && (q[pos + 1] == '$' || IsTagFirst(q[pos + 1])) {
        at, pos := TagLoop(q, pos + 1);
        return at, pos, found;
      } else if q[pos] == '-' && q[pos + 1] == '-' {
        return InComment, pos, found;
      }
      pos := pos + 1;
    }
    NoSpacesAtEnd(q, pos);
    at := End;
  }

  lemma NextPlace(q: string, i: nat)
    requires i + 2 < |q|
    ensures Following(q, i) ==
      if q[i] == '"' || q[i] == '\'' then AfterQuotes(q, i + 1, q[i])
      else if q[i] == '$' && (q[i + 1] == '$' || IsTagFirst(q[i + 1])) then AfterTag(q, i + 1, i + 1)
      else if q[i] == '-' && q[i + 1] == '-' then AfterComment(q, i)
      else i + 1
  {
  }

  /** The cascade of byte comparisons. */
  method Recorded(q: string, pos: nat) returns (spaces: seq<UnicodeSpace>)
    requires pos + 2 < |q|
    ensures spaces == SpacesAt(q, pos)
  {
    spaces := [];
    if q[pos] == '\U{C2}' {
      if q[pos + 1] == '\U{A0}' {
        spaces := spaces + [UnicodeSpace(pos, 2)];
      }
    }
    if q[pos] == '\U{E2}' {
      if q[pos + 1] == '\U{80}' {
        if q[pos + 2] >= '\U{80}' && q[pos + 2] <= '\U{8B}' {
          spaces := spaces + [UnicodeSpace(pos, 3)];
        } else if q[pos + 2] == '\U{AF}' {
          spaces := spaces + [UnicodeSpace(pos, 3)];
        }
      } else if q[pos + 1] == '\U{81}' {
        if q[pos + 2] == '\U{9F}' {
          spaces := spaces + [UnicodeSpace(pos, 3)];
        } else if q[pos + 2] == '\U{A0}' {
          spaces := spaces + [UnicodeSpace(pos, 3)];
        }
      }
    } else if q[pos] == '\U{E3}' {
      if q[pos + 1] == '\U{80}' && q[pos + 2] == '\U{80}' {
        spaces := spaces + [UnicodeSpace(pos, 3)];
      }
    } else if q[pos] == '\U{EF}' {
      if q[pos + 1] == '\U{BB}' && q[pos + 2] == '\U{BF}' {
        spaces := spaces + [UnicodeSpace(pos, 3)];
      }
    }
  }

  /** The text with every space of its plain parts replaced by one blank; untouched if there is none. */
  method StripUnicodeSpaces(q: string) returns (found: bool, newQuery: string)
    ensures found <==> Spaces(q, 0) != []
    ensures found ==>
      && AreSpans(q, 0, Spaces(q, 0))
      && newQuery == Rebuilt(q, 0, Spaces(q, 0)) && IsRebuilt(q, 0, Spaces(q, 0), newQuery)
    ensures !found ==> newQuery == ""
  {
    hide IsRebuilt, AreSpans, Spaces, Rebuilt;
    var at, pos, unicodeSpaces := Regular, 0, [];
    while at != End
      invariant pos <= |q| && Spaces(q, 0) == unicodeSpaces + Rest(q, at, pos)
      invariant at == InComment ==> pos < |q| && q[pos] == '-'
      decreases |q| - pos, if at == End then 0 else if at == Regular then 2 else 1
    {
      match at
      case Regular =>
        var spaces;
        at, pos, spaces := RegularLoop(q, pos);
        unicodeSpaces := unicodeSpaces + spaces;
      case InQuotes(quote) => at, pos := InQuotesLoop(q, pos, quote);
      case InDollarQuotes(tag) => at, pos := InDollarQuotesLoop(q, pos, tag);
      case InComment => at, pos := InCommentLoop(q, pos);
    }
    assert unicodeSpaces + [] == unicodeSpaces;
    SpacesAreSpans(q, 0);
    found, newQuery := ReplaceUnicodeSpaces(q, unicodeSpaces);
    RebuiltIsRight(q, 0, unicodeSpaces);
  }

  /** A no-break space in the last two bytes stays. */
  lemma LastSpaceStays()
    ensures Spaces("\U{C2}\U{A0}", 0) == [] && Spaces("\U{C2}\U{A0};", 0) == [UnicodeSpace(0, 2)]
  {
  }

  /** The scan goes on at the last `$` of a dollar-quoted string, which can open another one: behind an empty one,
      text in no quotes at all is not plain, and its spaces stay. */
  lemma ClosingDollarOpens()
    ensures Spaces("$$$$ \U{C2}\U{A0};", 0) == []
  {
    var q := "$$$$ \U{C2}\U{A0};";
    assert AfterDollars(q, 3, "") == |q| by {
      assert AfterDollars(q, 5, "") == |q|;
      assert AfterDollars(q, 4, "") == |q|;
    }
    assert Following(q, 2) == AfterTag(q, 3, 3) == |q|;
    assert ClosesTag(q, 1, "");
    assert Following(q, 0) == AfterTag(q, 1, 1) == AfterDollars(q, 1, "") == 2;
    assert Spaces(q, 2) == [];
  }
}
