/** Which places of a text are plain, read apart from the scan for Unicode spaces, and when the scan agrees. */
module PlainText {
  import opened Quotes
  import opened UnicodeSpaces
  import Lexing

  // ---------- a reading of quotes ----------

  /** Behind the closing quote, or the end. */
  function BehindQuotes(q: string, i: nat, quote: char): (e: nat)
    requires i <= |q|
    ensures i <= e <= |q|
    ensures EndsQuoted(q, i, e, quote) || (e == |q| && forall k :: i < k <= |q| ==> !EndsQuoted(q, i, k, quote))
    decreases |q| - i
  {
    if i == |q| then i
    else if q[i] != quote then
      var e := BehindQuotes(q, i + 1, quote);
      OneMoreQuoted(q, i, quote);
      e
    else if i + 1 < |q| && q[i + 1] == quote then
      var e := BehindQuotes(q, i + 2, quote);
      TwoMoreQuoted(q, i, quote);
      e
    else
      assert q[i..i] == "";
      i + 1
  }

  predicate IsBreak(c: char) {
    c in "\r\n"
  }

  /** The first line break from `i` on, or the end. */
  function LineBreak(q: string, i: nat): (e: nat)
    requires i <= |q|
    ensures i <= e <= |q| && (e < |q| ==> IsBreak(q[e])) && forall k :: i <= k < e ==> !IsBreak(q[k])
    decreases |q| - i
  {
    if i < |q| && !IsBreak(q[i]) then LineBreak(q, i + 1) else i
  }

  lemma {:induction false} QuotesRead(q: string, i: nat, quote: char)
    requires i <= |q|
    ensures AfterQuotes(q, i, quote) == BehindQuotes(q, i, quote)
    decreases |q| - i
  {
    if i + 1 < |q| && q[i] != quote {
      QuotesRead(q, i + 1, quote);
    } else if i + 1 < |q| && q[i + 1] == quote {
      QuotesRead(q, i + 2, quote);
    }
  }

  lemma CommentRead(q: string, i: nat)
    requires i <= |q|
    ensures AfterComment(q, i) == LineBreak(q, i)
  {
  }

  /** The first byte from `i` on that cannot be in a tag, or the end. */
  function TagEnd(q: string, i: nat): (j: nat)
    requires i <= |q|
    ensures i <= j <= |q| && (j < |q| ==> !IsTagSubsequent(q[j])) && forall k :: i <= k < j ==> IsTagSubsequent(q[k])
    decreases |q| - i
  {
    if i < |q| && IsTagSubsequent(q[i]) then TagEnd(q, i + 1) else i
  }

  /** The scan and the tokenizer agree on which bytes a tag may start with. */
  lemma SameTags(c: char)
    requires c <= '\U{FF}'
    ensures IsTagFirst(c) <==> Lexing.IsDollarTag(c)
    ensures IsTagSubsequent(c) <==> Lexing.IsDollarTag(c) || Lexing.IsDigit(c)
  {
  }

  /** A whole marker, with or without a tag, stands at `i`. */
  predicate IsMarker(q: string, i: nat)
    requires i + 2 < |q|
  {
    OpensDollars(q, i) && TagEnd(q, i + 1) < |q| && q[TagEnd(q, i + 1)] == '$'
  }

  function TagOf(q: string, i: nat): string
    requires i + 2 < |q|
  {
    q[i + 1..TagEnd(q, i + 1)]
  }

  /** The first place from `i` on where the marker with this tag stands, or the end. */
  function NextMarker(q: string, i: nat, tag: string): (k: nat)
    requires i <= |q|
    ensures i <= k <= |q| && (k < |q| ==> ClosesTag(q, k, tag)) && forall j :: i <= j < k ==> !ClosesTag(q, j, tag)
    decreases |q| - i
  {
    if i == |q| || ClosesTag(q, i, tag) then i else NextMarker(q, i + 1, tag)
  }

  /** The last `$` of a dollar-quoted string that starts at `i`: its closing marker comes behind the whole opening
      one. It is the end if the string is not closed. */
  function LastDollar(q: string, i: nat): (e: nat)
    requires i + 2 < |q| && IsMarker(q, i)
    ensures i < e <= |q| && (e < |q| ==> q[e] == '$' && e >= TagEnd(q, i + 1) + |TagOf(q, i)| + 2)
  {
    var k := NextMarker(q, TagEnd(q, i + 1) + 1, TagOf(q, i));
    if k == |q| then |q| else k + |TagOf(q, i)| + 1
  }

  /** The next place of plain text after `i`, behind any quoted text or comment that starts there. */
  function Behind(q: string, i: nat): (e: nat)
    requires i + 2 < |q|
    ensures i < e <= |q|
  {
    if q[i] == '"' || q[i] == '\'' then BehindQuotes(q, i + 1, q[i])
    else if IsMarker(q, i) then if LastDollar(q, i) == |q| then |q| else LastDollar(q, i) + 1
    else if q[i] == '-' && q[i + 1] == '-' then LineBreak(q, i + 2)
    else i + 1
  }

  /** The place `p` is in no quotes and no comment, if `i` is not. */
  predicate IsUnquoted(q: string, i: nat, p: nat)
    requires i <= |q|
    decreases |q| - i
  {
    i == p || (i + 2 < |q| && IsUnquoted(q, Behind(q, i), p))
  }

  /** The place `p` is the last `$` of a dollar-quoted string. */
  predicate IsLastDollar(q: string, i: nat, p: nat)
    requires i <= |q|
    decreases |q| - i
  {
    i + 2 < |q| && ((IsMarker(q, i) && LastDollar(q, i) == p < |q|) || IsLastDollar(q, Behind(q, i), p))
  }

  // ---------- when the scan agrees ----------

  /** The closing marker of a dollar-quoted string could begin with the last `$` of its opening one. */
  predicate Overlaps(q: string, i: nat)
    requires i + 2 < |q| && IsMarker(q, i)
  {
    ClosesTag(q, TagEnd(q, i + 1), TagOf(q, i))
  }

  /** At a dollar sign that seems to open a string: the tag is complete, no closing marker overlaps the opening one,
      and the last `$` of the string does not open another. What is wrong so near the end that no space could follow
      does not matter. */
  predicate IsClear(q: string, i: nat)
    requires i + 2 < |q|
  {
    OpensDollars(q, i) ==>
      if !IsMarker(q, i) then i + 3 >= |q|
      else
        && (Overlaps(q, i) ==> TagEnd(q, i + 1) + |TagOf(q, i)| + 3 >= |q|)
        && (LastDollar(q, i) + 3 < |q| ==> !OpensDollars(q, LastDollar(q, i)))
  }

  /** Every dollar sign outside quotes and comments is clear. */
  predicate AllClear(q: string, i: nat)
    requires i <= |q|
    decreases |q| - i
  {
    i + 2 < |q| ==> IsClear(q, i) && AllClear(q, Behind(q, i))
  }

  /** From `i` on, the scan takes for plain what is unquoted or the last `$` of a dollar-quoted string. */
  ghost predicate Agrees(q: string, i: nat)
    requires i <= |q|
  {
    forall p: nat :: p + 2 < |q| ==> AgreesAt(q, i, p)
  }

  predicate AgreesAt(q: string, i: nat, p: nat)
    requires i <= |q|
  {
    IsPlain(q, i, p) <==> IsUnquoted(q, i, p) || IsLastDollar(q, i, p)
  }

  lemma {:induction false} UnquotedIsBehind(q: string, i: nat, p: nat)
    requires i <= |q|
    ensures IsUnquoted(q, i, p) ==> i <= p
    ensures IsLastDollar(q, i, p) ==> i < p < |q| && q[p] == '$'
    decreases |q| - i
  {
    if i + 2 < |q| {
      UnquotedIsBehind(q, Behind(q, i), p);
    }
  }

  /** From here on both readings have nothing plain but the last bytes. */
  lemma NothingLeft(q: string, i: nat, p: nat)
    requires i <= |q| <= i + 2 && p + 2 < |q|
    ensures !IsPlain(q, i, p) && !IsUnquoted(q, i, p) && !IsLastDollar(q, i, p)
  {
  }

  /** The scan that looks for a tag finds it where it ends. */
  lemma {:induction false} TagRead(q: string, start: nat, i: nat)
    requires start <= i <= |q|
    ensures var j := TagEnd(q, i);
      AfterTag(q, start, i) ==
      if j + 2 >= |q| then |q| else if q[j] == '$' then AfterDollars(q, j, q[start..j]) else j
    decreases |q| - i
  {
    if i + 2 < |q| && q[i] != '$' && IsTagSubsequent(q[i]) {
      TagRead(q, start, i + 1);
    }
  }

  lemma {:induction false} MarkerRead(q: string, i: nat, tag: string)
    requires i <= |q|
    ensures var k := NextMarker(q, i, tag);
      AfterDollars(q, i, tag) == if k + 2 >= |q| then |q| else k + |tag| + 1
    decreases |q| - i
  {
    if i + 2 < |q| && !ClosesTag(q, i, tag) {
      MarkerRead(q, i + 1, tag);
    }
  }

  /** One step of the two readings, for a place that is not the one they are at. */
  lemma OneStep(q: string, i: nat, p: nat)
    requires i + 2 < |q| && p != i
    ensures IsPlain(q, i, p) == IsPlain(q, Following(q, i), p)
    ensures IsUnquoted(q, i, p) == IsUnquoted(q, Behind(q, i), p)
    ensures IsLastDollar(q, i, p) ==
      ((IsMarker(q, i) && LastDollar(q, i) == p < |q|) || IsLastDollar(q, Behind(q, i), p))
  {
    hide Following, Behind, IsMarker;
  }

  /** At the place itself both agree. */
  lemma HereAgrees(q: string, i: nat)
    requires i <= |q|
    ensures IsPlain(q, i, i) && IsUnquoted(q, i, i)
  {
  }

  /** Where a step goes on at the same place, nothing changes. */
  lemma SameStep(q: string, i: nat)
    requires i + 2 < |q| && Following(q, i) == Behind(q, i) && !IsMarker(q, i)
    ensures Agrees(q, i) <==> Agrees(q, Behind(q, i))
  {
    hide Following, Behind, IsMarker, IsPlain, IsUnquoted, IsLastDollar;
    var n := Behind(q, i);
    HereAgrees(q, i);
    PlainIsBehind(q, n, i);
    UnquotedIsBehind(q, n, i);
    forall p: nat | p + 2 < |q| && p != i
      ensures AgreesAt(q, i, p) <==> AgreesAt(q, n, p)
    {
      OneStep(q, i, p);
    }
  }

  /** At a dollar sign without a whole marker the scan skips the bytes that could have been its tag. */
  lemma TagStep(q: string, i: nat)
    requires i + 2 < |q| && OpensDollars(q, i) && !IsMarker(q, i)
    ensures Agrees(q, i) <==> IsClear(q, i)
    ensures IsClear(q, i) ==> Behind(q, i) + 2 >= |q|
  {
    var n := Following(q, i);
    TagRead(q, i + 1, i + 1);
    assert Behind(q, i) == i + 1 < n;
    hide Following, Behind, IsMarker, IsPlain, IsUnquoted, IsLastDollar, OpensDollars;
    if i + 3 < |q| {
      OneStep(q, i, i + 1);
      HereAgrees(q, i + 1);
      PlainIsBehind(q, n, i + 1);
      assert !AgreesAt(q, i, i + 1);
    } else {
      OnlyHere(q, i, n);
    }
  }

  /** When both readings go on at the last two bytes, they agree. */
  lemma OnlyHere(q: string, i: nat, n: nat)
    requires i + 2 < |q| && n == Following(q, i) && n + 2 >= |q| && Behind(q, i) + 2 >= |q|
    requires IsMarker(q, i) ==> LastDollar(q, i) + 2 >= |q|
    ensures Agrees(q, i)
  {
    hide Following, Behind, IsMarker, IsPlain, IsUnquoted, IsLastDollar;
    HereAgrees(q, i);
    forall p: nat | p + 2 < |q| && p != i
      ensures !IsPlain(q, i, p) && !IsUnquoted(q, i, p) && !IsLastDollar(q, i, p)
    {
      OneStep(q, i, p);
      NothingLeft(q, n, p);
      NothingLeft(q, Behind(q, i), p);
    }
    UnquotedIsBehind(q, Behind(q, i), i);
  }

  /** Where the closing marker overlaps the opening one, the scan is plain on its last `$`. */
  lemma OverlapStep(q: string, i: nat)
    requires i + 2 < |q| && OpensDollars(q, i) && IsMarker(q, i) && Overlaps(q, i)
    ensures Agrees(q, i) <==> IsClear(q, i)
    ensures IsClear(q, i) ==> Behind(q, i) + 2 >= |q|
  {
    var e0, e, n := TagEnd(q, i + 1) + |TagOf(q, i)| + 1, LastDollar(q, i), Following(q, i);
    TagRead(q, i + 1, i + 1);
    assert TagEnd(q, i + 1) + 2 < |q| ==> n == e0;
    assert e0 < e && e < |q| ==> Behind(q, i) == e + 1;
    if e0 + 2 < |q| {
      hide Behind, IsMarker, Following, IsPlain, IsUnquoted, IsLastDollar, LastDollar, TagEnd, TagOf;
      HereAgrees(q, e0);
      OneStep(q, i, e0);
      UnquotedIsBehind(q, Behind(q, i), e0);
      assert !AgreesAt(q, i, e0);
    } else {
      OnlyHere(q, i, n);
    }
  }

  lemma EndAgrees(q: string, i: nat)
    requires i <= |q| <= i + 2
    ensures Agrees(q, i)
  {
    hide IsPlain, IsUnquoted, IsLastDollar;
    forall p: nat | p + 2 < |q| ensures !IsPlain(q, i, p) && !IsUnquoted(q, i, p) && !IsLastDollar(q, i, p) {
      NothingLeft(q, i, p);
    }
  }

  /** Where the scan goes on on the last `$` of the string that starts at `i`. */
  lemma ClosedRead(q: string, i: nat)
    requires i + 2 < |q| && OpensDollars(q, i) && IsMarker(q, i) && !Overlaps(q, i)
    ensures var e := LastDollar(q, i);
      if e + 2 < |q| then Following(q, i) == e && Behind(q, i) == e + 1
      else Following(q, i) + 2 >= |q| && Behind(q, i) + 2 >= |q|
  {
    var j, tag := TagEnd(q, i + 1), TagOf(q, i);
    TagRead(q, i + 1, i + 1);
    MarkerRead(q, j + 1, tag);
  }

  /** Behind a dollar sign that seems to open a string, the scan skips a byte at least. */
  lemma SkipsOne(q: string, e: nat)
    requires e + 3 < |q| && OpensDollars(q, e)
    ensures Following(q, e) > e + 1
  {
  }

  /** Where the closing marker stands apart, the scan is plain on its last `$`, and agrees unless that opens another
      string. */
  lemma CloseStep(q: string, i: nat)
    requires i + 2 < |q| && OpensDollars(q, i) && IsMarker(q, i) && !Overlaps(q, i)
    ensures Agrees(q, i) <==> IsClear(q, i) && Agrees(q, Behind(q, i))
  {
    var e, n := LastDollar(q, i), Behind(q, i);
    ClosedRead(q, i);
    assert IsClear(q, i) <==> (e + 3 < |q| ==> !OpensDollars(q, e));
    if e + 2 >= |q| {
      OnlyHere(q, i, Following(q, i));
      EndAgrees(q, n);
    } else if OpensDollars(q, e) {
      ReopenStep(q, i);
    } else {
      assert Following(q, e) == e + 1;
      PassStep(q, i);
    }
  }

  /** The last `$` opens another string for the scan, which then skips the byte behind it. */
  lemma ReopenStep(q: string, i: nat)
    requires i + 2 < |q| && IsMarker(q, i) && Following(q, i) == LastDollar(q, i) && LastDollar(q, i) + 2 < |q|
    requires Behind(q, i) == LastDollar(q, i) + 1 && OpensDollars(q, LastDollar(q, i))
    ensures Agrees(q, i) <==> LastDollar(q, i) + 3 >= |q|
    ensures LastDollar(q, i) + 3 >= |q| ==> Agrees(q, Behind(q, i))
  {
    hide Following, Behind, IsMarker, IsPlain, IsUnquoted, IsLastDollar, OpensDollars, LastDollar, AgreesAt;
    var e := LastDollar(q, i);
    if e + 3 < |q| {
      ReopenSkips(q, i);
    } else {
      EndAgrees(q, e + 1);
      forall p: nat | p + 2 < |q| ensures AgreesAt(q, i, p) {
        ReopenAtEnd(q, i, p);
      }
    }
  }

  lemma ReopenSkips(q: string, i: nat)
    requires i + 2 < |q| && IsMarker(q, i) && Following(q, i) == LastDollar(q, i) && LastDollar(q, i) + 3 < |q|
    requires Behind(q, i) == LastDollar(q, i) + 1 && OpensDollars(q, LastDollar(q, i))
    ensures !AgreesAt(q, i, LastDollar(q, i) + 1)
  {
    hide Following, Behind, IsMarker, IsPlain, IsUnquoted, IsLastDollar, OpensDollars, LastDollar;
    var e := LastDollar(q, i);
    SkipsOne(q, e);
    OneStep(q, i, e + 1);
    OneStep(q, e, e + 1);
    HereAgrees(q, e + 1);
    PlainIsBehind(q, Following(q, e), e + 1);
  }

  lemma ReopenAtEnd(q: string, i: nat, p: nat)
    requires i + 2 < |q| && IsMarker(q, i) && Following(q, i) == LastDollar(q, i) && LastDollar(q, i) + 3 == |q|
    requires Behind(q, i) == LastDollar(q, i) + 1 && p + 2 < |q|
    ensures AgreesAt(q, i, p)
  {
    hide Following, Behind, IsMarker, IsPlain, IsUnquoted, IsLastDollar, LastDollar;
    var e := LastDollar(q, i);
    HereAgrees(q, i);
    HereAgrees(q, e);
    PlainIsBehind(q, e, p);
    NothingLeft(q, e + 1, p);
    if p != i {
      OneStep(q, i, p);
    }
  }

  lemma PassAt(q: string, i: nat, p: nat)
    requires i + 2 < |q| && IsMarker(q, i) && Following(q, i) == LastDollar(q, i) && LastDollar(q, i) + 2 < |q|
    requires Behind(q, i) == LastDollar(q, i) + 1 == Following(q, LastDollar(q, i))
    ensures AgreesAt(q, i, p) <==> AgreesAt(q, Behind(q, i), p)
  {
    hide Following, Behind, IsMarker, IsPlain, IsUnquoted, IsLastDollar, OpensDollars, LastDollar;
    var e := LastDollar(q, i);
    HereAgrees(q, i);
    HereAgrees(q, e);
    PlainIsBehind(q, e + 1, p);
    UnquotedIsBehind(q, e + 1, p);
    if p != i {
      OneStep(q, i, p);
      if p != e {
        OneStep(q, e, p);
      }
    }
  }

  /** The scan passes over the last `$`. */
  lemma PassStep(q: string, i: nat)
    requires i + 2 < |q| && IsMarker(q, i) && Following(q, i) == LastDollar(q, i) && LastDollar(q, i) + 2 < |q|
    requires Behind(q, i) == LastDollar(q, i) + 1 == Following(q, LastDollar(q, i))
    ensures Agrees(q, i) <==> Agrees(q, Behind(q, i))
  {
    hide Following, Behind, IsMarker, AgreesAt, OpensDollars, LastDollar;
    var n := Behind(q, i);
    if Agrees(q, i) {
      forall p: nat | p + 2 < |q| ensures AgreesAt(q, n, p) {
        PassAt(q, i, p);
      }
    } else {
      var p: nat :| p + 2 < |q| && !AgreesAt(q, i, p);
      PassAt(q, i, p);
    }
  }

  /** The scan takes for plain text what is in no quotes and no comment, and the last `$` of dollar-quoted strings,
      exactly if every dollar sign outside quotes and comments is clear. */
  lemma {:induction false} AgreesExactly(q: string, i: nat)
    requires i <= |q|
    ensures Agrees(q, i) <==> AllClear(q, i)
    decreases |q| - i
  {
    hide Agrees, Following, Behind, IsMarker, OpensDollars;
    if i + 2 >= |q| {
      EndAgrees(q, i);
    } else {
      AgreesExactly(q, Behind(q, i));
      OneMore(q, i);
    }
  }

  /** Where no dollar sign opens anything, both readings go on at the same place. */
  lemma SameRead(q: string, i: nat)
    requires i + 2 < |q| && !OpensDollars(q, i)
    ensures Following(q, i) == Behind(q, i) && !IsMarker(q, i)
  {
    QuotesRead(q, i + 1, q[i]);
    CommentRead(q, i);
    assert LineBreak(q, i) >= i && (q[i] == '-' && q[i + 1] == '-' ==> LineBreak(q, i) == LineBreak(q, i + 2));
  }

  lemma OneMore(q: string, i: nat)
    requires i + 2 < |q|
    ensures Agrees(q, i) <==> IsClear(q, i) && Agrees(q, Behind(q, i))
  {
    hide Agrees;
    if !OpensDollars(q, i) {
      SameRead(q, i);
      SameStep(q, i);
    } else if !IsMarker(q, i) {
      TagStep(q, i);
      if Behind(q, i) + 2 >= |q| {
        EndAgrees(q, Behind(q, i));
      }
    } else if Overlaps(q, i) {
      OverlapStep(q, i);
      if Behind(q, i) + 2 >= |q| {
        EndAgrees(q, Behind(q, i));
      }
    } else {
      CloseStep(q, i);
    }
  }

  /** Then a space is found just where one is encoded outside quotes and comments, at least two bytes before the
      last. */
  lemma FoundOutsideQuotes(q: string, p: nat)
    requires AllClear(q, 0)
    ensures Finds(Spaces(q, 0), p) <==> (p + 2 < |q| && IsUnquoted(q, 0, p) && SpaceLength(q, p) > 0)
  {
    hide IsPlain, IsUnquoted, IsLastDollar, AllClear, Spaces;
    AgreesExactly(q, 0);
    FoundExactly(q, 0, p);
    UnquotedIsBehind(q, 0, p);
    assert p + 2 < |q| ==> AgreesAt(q, 0, p);
  }

  // ---------- texts on which it does not ----------

  /** A no-break space right behind a dollar sign is skipped as if it were a tag. */
  lemma SpaceBehindDollar()
    ensures var q := "$\U{C2}\U{A0};;"; Spaces(q, 0) == [] && IsUnquoted(q, 0, 1) && SpaceLength(q, 1) > 0
  {
    var q := "$\U{C2}\U{A0};;";
    assert TagEnd(q, 1) == 3 by {
      assert TagEnd(q, 3) == 3;
      assert TagEnd(q, 2) == 3;
    }
    TagRead(q, 1, 1);
    assert Following(q, 0) == 5;
    assert Behind(q, 0) == 1;
  }

  /** So is one right behind a dollar-quoted string, as its last `$` is taken for the first of another. */
  lemma SpaceBehindString()
    ensures var q := "$$ $$\U{C2}\U{A0};;"; Spaces(q, 0) == [] && IsUnquoted(q, 0, 5) && SpaceLength(q, 5) > 0
  {
    var q := "$$ $$\U{C2}\U{A0};;";
    assert TagEnd(q, 1) == 1 && TagOf(q, 0) == "";
    assert NextMarker(q, 2, "") == 3 by {
      assert ClosesTag(q, 3, "");
    }
    assert Behind(q, 0) == 5;
    TagRead(q, 1, 1);
    assert AfterDollars(q, 1, "") == 4 by {
      assert AfterDollars(q, 3, "") == 4;
      assert AfterDollars(q, 2, "") == 4;
    }
    assert TagEnd(q, 5) == 7 by {
      assert TagEnd(q, 7) == 7;
      assert TagEnd(q, 6) == 7;
    }
    TagRead(q, 5, 5);
    assert Following(q, 0) == 4 && Following(q, 4) == 9;
    assert Spaces(q, 4) == [];
  }

  /** A no-break space in dollar quotes is replaced, as the closing marker found overlaps the opening one. */
  lemma SpaceInDollars()
    ensures var q := "$$$ \U{C2}\U{A0} $$";
      Finds(Spaces(q, 0), 4) && (forall p :: 0 < p < |q| ==> !IsUnquoted(q, 0, p))
  {
    var q := "$$$ \U{C2}\U{A0} $$";
    assert TagEnd(q, 1) == 1 && TagOf(q, 0) == "";
    assert ClosesTag(q, 1, "");
    TagRead(q, 1, 1);
    assert Following(q, 0) == 2;
    assert Following(q, 2) == 3 && Following(q, 3) == 4;
    FoundExactly(q, 0, 4);
    assert IsPlain(q, 4, 4);
    assert IsPlain(q, 3, 4);
    assert IsPlain(q, 2, 4);
  }
}
