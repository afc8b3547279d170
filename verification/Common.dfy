/** A value that may be missing. */
module Options {
  datatype Option<+T> = None | Some(value: T)
}

/** The characters that both the grammar and SQL text call space. */
module Characters {
  predicate IsNewline(c: char) {
    c == '\n' || c == '\r'
  }

  predicate IsSpace(c: char) {
    c == ' ' || c == '\t' || c == '\n' || c == '\U{0B}' || c == '\U{0C}' || c == '\r'
  }
}

/** Where quoted text ends, when a quote in it is written twice. */
module Quotes {
  /** Every `quote` in the text has another one behind it. */
  predicate AllDoubled(s: string, quote: char) {
    s == "" ||
    if s[0] != quote then AllDoubled(s[1..], quote) else |s| >= 2 && s[1] == quote && AllDoubled(s[2..], quote)
  }

  /** Quoted text from `i` on ends right before `e`: with a quote that is not doubled. */
  predicate EndsQuoted(q: string, i: nat, e: nat, quote: char) {
    i < e <= |q| && AllDoubled(q[i..e - 1], quote) && q[e - 1] == quote && (e < |q| ==> q[e] != quote)
  }

  lemma OneMoreQuoted(q: string, i: nat, quote: char)
    requires i < |q| && q[i] != quote
    ensures forall e :: i + 1 < e <= |q| ==> (EndsQuoted(q, i, e, quote) <==> EndsQuoted(q, i + 1, e, quote))
    ensures !EndsQuoted(q, i, i + 1, quote)
  {
    forall e | i + 1 < e <= |q| ensures EndsQuoted(q, i, e, quote) <==> EndsQuoted(q, i + 1, e, quote) {
      assert q[i..e - 1][1..] == q[i + 1..e - 1];
    }
  }

  lemma TwoMoreQuoted(q: string, i: nat, quote: char)
    requires i + 1 < |q| && q[i] == q[i + 1] == quote
    ensures forall e :: i + 2 < e <= |q| ==> (EndsQuoted(q, i, e, quote) <==> EndsQuoted(q, i + 2, e, quote))
    ensures !EndsQuoted(q, i, i + 1, quote) && !EndsQuoted(q, i, i + 2, quote)
  {
    forall e | i + 2 < e <= |q| ensures EndsQuoted(q, i, e, quote) <==> EndsQuoted(q, i + 2, e, quote) {
      assert q[i..e - 1][2..] == q[i + 2..e - 1];
    }
    assert q[i..i + 1] == [quote];
  }

  /** Quoted text ends at one place at most. */
  lemma {:induction false} EndsQuotedOnce(q: string, i: nat, e: nat, e': nat, quote: char)
    requires EndsQuoted(q, i, e, quote) && EndsQuoted(q, i, e', quote)
    ensures e == e'
    decreases |q| - i
  {
    if q[i] != quote {
      OneMoreQuoted(q, i, quote);
      EndsQuotedOnce(q, i + 1, e, e', quote);
    } else if i + 1 < |q| && q[i + 1] == quote {
      TwoMoreQuoted(q, i, quote);
      EndsQuotedOnce(q, i + 2, e, e', quote);
    } else {
      EndsAtOnce(q, i, e, quote);
      EndsAtOnce(q, i, e', quote);
    }
  }

  lemma EndsAtOnce(q: string, i: nat, e: nat, quote: char)
    requires EndsQuoted(q, i, e, quote) && q[i] == quote && (i + 1 < |q| ==> q[i + 1] != quote)
    ensures e == i + 1
  {
  }
}
