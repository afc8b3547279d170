/** What holds between two tokens while the matcher of a rule is built, and that every token keeps it.
    A ')' right after '/' closes the choice instead of the bracket; the bracket is then never closed,
    which the depth check at the end notices. Until then the build is doomed. */
module RuleBuild {
  import opened Options
  import opened MatcherGraph
  import opened Grammar
  import opened GrammarRoundTrip
  import opened RuleReading
  import opened RuleStack
  import opened RuleMachine

  ghost predicate RuleDone(g: Source, nodes: Graph, cache: map<string, Id>, open: set<Id>, n: string)
    requires g.Valid()
  {
    && n in g.rules && n in cache && Body(g, n, None).Some?
    && Stands(nodes, cache, open, cache[n], Body(g, n, None).value)
    && MentionsWithin(g, n, cache.Keys)
  }

  /** The factory between two operations: cached rules are finished unless `pending`, that is, being built. */
  ghost predicate FactoryOk(g: Source, nodes: Graph, cache: map<string, Id>, open: set<Id>, pending: set<string>) {
    && g.Valid() && Closed(nodes) && Allocated(nodes, open) && g.builtins <= cache.Keys
    && (forall n :: n in cache ==> cache[n] < |nodes|)
    && (forall n :: n in g.builtins ==> cache[n] !in open && nodes[cache[n]] == Leaf(Builtin(n)))
    && (forall n :: n in cache && n !in g.builtins && n !in pending ==> RuleDone(g, nodes, cache, open, n))
  }

  lemma FactoryLater(g: Source, nodes: Graph, cache: map<string, Id>, open: set<Id>, pending: set<string>,
                     nodes': Graph, open': set<Id>)
    requires FactoryOk(g, nodes, cache, open, pending) && Later(nodes, open, nodes', open')
    requires Closed(nodes') && Allocated(nodes', open')
    ensures FactoryOk(g, nodes', cache, open', pending)
  {
    hide Body, MentionsWithin;
    forall n | n in cache && n !in g.builtins && n !in pending ensures RuleDone(g, nodes', cache, open', n) {
      StandsLater(nodes, cache, open, nodes', cache, open', cache[n], Body(g, n, None).value);
    }
  }

  lemma {:induction false} MentionsMore(g: Source, name: string, names: set<string>, names': set<string>)
    requires g.Valid() && name in g.rules && MentionsWithin(g, name, names) && names <= names'
    ensures MentionsWithin(g, name, names')
    decreases g.rank[name]
  {
    forall t | t in g.rules[name].tokens && t.FunctionCall? && t.text in g.rules
      ensures MentionsWithin(g, t.text, names')
    {
      assert FunctionCall(t.text) in g.rules[name].tokens;
      MentionsMore(g, t.text, names, names');
    }
  }

  // ---------- the loop invariant ----------

  datatype Build = Build(m: Machine, cache: map<string, Id>, open: set<Id>, frames: seq<Frame>, doomed: bool)

  /** The stack holds lists and choices under construction, none of them older than `base`. */
  ghost predicate StackOk(g: Source, name: string, base: nat, m: Machine, open: set<Id>)
    requires g.Valid() && name in g.rules
  {
    && MachineOk(m) && UnderConstruction(m, open)
    && (forall i :: 0 <= i < |m.stack| ==> m.stack[i].matcher >= base)
    && (forall i :: 0 <= i < |m.stack| ==> m.nodes[m.stack[i].matcher].List? || m.nodes[m.stack[i].matcher].Choice?)
    && (forall i :: 0 <= i < |m.stack| && m.stack[i].fn != "" ==>
          m.nodes[m.stack[i].matcher].List? && FunctionCall(m.stack[i].fn) in g.rules[name].tokens)
  }

  /** The rules mentioned by the tokens read so far are built, except in calls whose brackets are open. */
  ghost predicate Mentioned(g: Source, name: string, names: set<string>, frames: seq<Frame>, pos: nat)
    requires g.Valid() && name in g.rules && pos <= |g.rules[name].tokens|
  {
    forall k :: 0 <= k < pos ==>
      var t := g.rules[name].tokens[k];
      && (t.Reference? && t.text !in g.rules[name].parameters ==> t.text in names || t.text in g.builtins)
      && (t.FunctionCall? && t.text in g.rules && !MentionsWithin(g, t.text, names) ==>
            exists j :: 0 <= j < |frames| && frames[j].fn == t.text)
  }

  ghost predicate Reading(g: Source, name: string, arg: Option<Expr>, b: Build, pos: nat)
    requires g.Valid() && name in g.rules && pos <= |g.rules[name].tokens|
    requires g.rules[name].parameters != [] ==> arg.Some?
  {
    && Sim(b.m, b.cache, b.open, b.frames)
    && |b.frames| == 1 + Depth(g.rules[name].tokens[..pos]) && b.frames[0].fn == ""
    && Mentioned(g, name, b.cache.Keys, b.frames, pos)
    && Resume(g, name, arg, b.frames, pos) == Body(g, name, arg)
  }

  ghost predicate LoopInv(g: Source, name: string, arg: Option<Expr>, base: nat, pending: set<string>, b: Build,
                          pos: nat)
  {
    && g.Valid() && name in g.rules && pos <= |g.rules[name].tokens|
    && (g.rules[name].parameters != [] ==> arg.Some?)
    && FactoryOk(g, b.m.nodes, b.cache, b.open, pending)
    && StackOk(g, name, base, b.m, b.open)
    && if b.doomed then
         Body(g, name, arg).None? && Lists(b.m.nodes, b.m.stack) >= 2 + Depth(g.rules[name].tokens[..pos])
       else Reading(g, name, arg, b, pos)
  }

  lemma DepthNext(ts: seq<PegToken>, pos: nat)
    requires pos < |ts|
    ensures Depth(ts[..pos + 1]) == Depth(ts[..pos]) + Delta(ts[pos])
  {
    assert ts[..pos + 1][..pos] == ts[..pos];
  }

  // ---------- the machine alone ----------

  lemma AddChildLists(m: Machine, id: Id)
    requires MachineOk(m) && AddChild(m, id).Some?
    ensures var m' := AddChild(m, id).value; Lists(m'.nodes, m'.stack) == Lists(m.nodes, m.stack)
  {
    var m' := AddChild(m, id).value;
    assert m'.stack <= m.stack;
    ListsSame(m.nodes, m'.nodes, m'.stack);
  }

  lemma AddChildMachine(g: Source, name: string, base: nat, m: Machine, open: set<Id>, open': set<Id>, id: Id)
    requires g.Valid() && name in g.rules && StackOk(g, name, base, m, open)
    requires Closed(m.nodes) && id < |m.nodes|
    requires m.nodes[Top(m)].List? || |m.stack| > 1
    requires open' == open || (m.nodes[Top(m)].Choice? && open' == open - {Top(m)})
    ensures AddChild(m, id).Some?
    ensures var m' := AddChild(m, id).value;
      && StackOk(g, name, base, m', open') && Closed(m'.nodes) && |m'.nodes| == |m.nodes|
      && Later(m.nodes, open, m'.nodes, open') && m.nodes[..Top(m)] <= m'.nodes
      && Lists(m'.nodes, m'.stack) == Lists(m.nodes, m.stack)
  {
    hide Lists;
    AddChildLists(m, id);
    var m' := AddChild(m, id).value;
    var t := Top(m);
    assert RefersBelow(m.nodes[t], |m.nodes|);
    assert m'.stack <= m.stack;
    assert m.stack[|m.stack| - 1].matcher == t;
  }

  lemma PopMachine(g: Source, name: string, base: nat, m: Machine, open: set<Id>, open': set<Id>)
    requires g.Valid() && name in g.rules && StackOk(g, name, base, m, open) && |m.stack| > 1
    requires open' == open || open' == open - {Top(m)}
    ensures var m' := m.(stack := m.stack[..|m.stack| - 1]);
      && StackOk(g, name, base, m', open') && Later(m.nodes, open, m'.nodes, open')
      && Lists(m'.nodes, m'.stack) == Lists(m.nodes, m.stack) - (if m.nodes[Top(m)].List? then 1 else 0)
  {
    assert m.stack[|m.stack| - 1].matcher == Top(m);
  }

  lemma PushMachine(g: Source, name: string, base: nat, m: Machine, open: set<Id>, entry: Entry)
    requires g.Valid() && name in g.rules && StackOk(g, name, base, m, open)
    requires entry.matcher < |m.nodes| && entry.matcher >= base
    requires forall i :: 0 <= i < |m.stack| ==> m.stack[i].matcher < entry.matcher
    requires m.nodes[entry.matcher].List? || (m.nodes[entry.matcher].Choice? && entry.fn == "")
    requires entry.fn == "" || FunctionCall(entry.fn) in g.rules[name].tokens
    ensures var m' := m.(stack := m.stack + [entry]);
      && StackOk(g, name, base, m', open + {entry.matcher})
      && Lists(m'.nodes, m'.stack) == Lists(m.nodes, m.stack) + (if m.nodes[entry.matcher].List? then 1 else 0)
  {
    assert (m.stack + [entry])[..|m.stack|] == m.stack;
  }

  lemma OpenMachine(g: Source, name: string, base: nat, m: Machine, open: set<Id>, fn: string)
    requires g.Valid() && name in g.rules && StackOk(g, name, base, m, open) && Closed(m.nodes) && base <= |m.nodes|
    requires fn == "" || FunctionCall(fn) in g.rules[name].tokens
    ensures var m', open' := Open(m, fn), open + {|m.nodes|};
      && StackOk(g, name, base, m', open') && Closed(m'.nodes) && Later(m.nodes, open, m'.nodes, open')
      && m.nodes <= m'.nodes && Lists(m'.nodes, m'.stack) == Lists(m.nodes, m.stack) + 1
  {
    hide Lists;
    var m' := Open(m, fn);
    ListsSame(m.nodes, m'.nodes, m.stack);
    PushMachine(g, name, base, m.(nodes := m'.nodes), open, Entry(|m.nodes|, fn));
    forall i | 0 <= i < |m'.nodes| ensures RefersBelow(m'.nodes[i], |m'.nodes|) {
      if i < |m.nodes| { assert RefersBelow(m.nodes[i], |m.nodes|); }
    }
  }

  /** The matchers that wrap the last item of a list refer only to it and to one another. */
  ghost predicate Wraps(added: seq<Matcher>, last: Id, n: nat) {
    added == [Optional(last)] || added == [Repeat(last), Optional(n)] || added == [Choice([last])]
  }

  lemma ReplaceLastMachine(g: Source, name: string, base: nat, m: Machine, open: set<Id>, added: seq<Matcher>)
    requires g.Valid() && name in g.rules && StackOk(g, name, base, m, open) && Closed(m.nodes)
    requires HasLast(m) && Wraps(added, Last(m), |m.nodes|) && Allocated(m.nodes, open)
    ensures var m' := ReplaceLast(m, added);
      && StackOk(g, name, base, m', open) && Closed(m'.nodes) && Later(m.nodes, open, m'.nodes, open)
      && m.nodes[..Top(m)] <= m'.nodes && Lists(m'.nodes, m'.stack) == Lists(m.nodes, m.stack)
      && |m'.nodes| == |m.nodes| + |added|
  {
    var m' := ReplaceLast(m, added);
    assert RefersBelow(m.nodes[Top(m)], |m.nodes|);
    ListsSame(m.nodes, m'.nodes, m.stack);
    forall i | 0 <= i < |m'.nodes| ensures RefersBelow(m'.nodes[i], |m'.nodes|) {
      if i < |m.nodes| { assert RefersBelow(m.nodes[i], |m.nodes|); }
    }
  }

  lemma MakeChoiceMachine(g: Source, name: string, base: nat, m: Machine, open: set<Id>)
    requires g.Valid() && name in g.rules && StackOk(g, name, base, m, open) && Closed(m.nodes) && base <= |m.nodes|
    requires HasLast(m) && Allocated(m.nodes, open)
    ensures var m', open' := MakeChoice(m), open + {|m.nodes|};
      && StackOk(g, name, base, m', open') && Closed(m'.nodes) && Later(m.nodes, open, m'.nodes, open')
      && m.nodes[..Top(m)] <= m'.nodes && Lists(m'.nodes, m'.stack) == Lists(m.nodes, m.stack)
      && |m'.nodes| == |m.nodes| + 1
  {
    hide Lists, Closed;
    var added := [Choice([Last(m)])];
    ReplaceLastMachine(g, name, base, m, open, added);
    var r := ReplaceLast(m, added);
    assert r.nodes[|m.nodes|] == Choice([Last(m)]);
    PushMachine(g, name, base, r, open, Entry(|m.nodes|, ""));
  }
}
