/** Every token keeps the invariant of building a rule. */
module RuleSteps {
  import opened Options
  import opened MatcherGraph
  import opened Grammar
  import opened GrammarRoundTrip
  import opened RuleReading
  import opened RuleStack
  import opened RuleMachine
  import opened RuleBuild

  /** What a literal or a reference stands for. */
  function Primary(g: Source, name: string, arg: Option<Expr>, t: PegToken): Expr
    requires name in g.rules && (t.Literal? || t.Reference?)
    requires g.rules[name].parameters != [] ==> arg.Some?
  {
    if t.Literal? then Word(Keyword(t.text))
    else if t.text in g.rules[name].parameters then arg.value
    else Ref(t.text)
  }

  /** Matchers under construction in this rule are the only ones whose state may change. */
  ghost predicate OnlyFrom(base: nat, b: Build, b': Build) {
    && |b.m.nodes| <= |b'.m.nodes| && (base <= |b.m.nodes| ==> b.m.nodes[..base] <= b'.m.nodes)
    && forall i :: i < base ==> (i in b.open <==> i in b'.open)
  }

  lemma OnlyFromTwice(base: nat, b: Build, b1: Build, b2: Build)
    requires OnlyFrom(base, b, b1) && OnlyFrom(base, b1, b2)
    ensures OnlyFrom(base, b, b2)
  {
  }

  lemma MentionedNext(g: Source, name: string, names: set<string>, frames: seq<Frame>, frames': seq<Frame>, pos: nat)
    requires g.Valid() && name in g.rules && pos < |g.rules[name].tokens|
    requires Mentioned(g, name, names, frames, pos)
    requires forall j :: 0 <= j < |frames| ==> exists j' :: 0 <= j' < |frames'| && frames'[j'].fn == frames[j].fn
    requires var t := g.rules[name].tokens[pos];
      && (t.Reference? && t.text !in g.rules[name].parameters ==> t.text in names || t.text in g.builtins)
      && (t.FunctionCall? ==> exists j' :: 0 <= j' < |frames'| && frames'[j'].fn == t.text)
    ensures Mentioned(g, name, names, frames', pos + 1)
  {
  }

  /** A token that neither opens nor closes a bracket changes the topmost frame only. */
  lemma TopReading(g: Source, name: string, arg: Option<Expr>, b: Build, pos: nat, next: Frame, b': Build)
    requires g.Valid() && name in g.rules && pos < |g.rules[name].tokens|
    requires g.rules[name].parameters != [] ==> arg.Some?
    requires Reading(g, name, arg, b, pos) && TopStep(g, name, arg, TopFrame(b.frames), pos, next)
    requires b'.cache == b.cache && b'.frames == Below(b.frames) + [next]
    requires Sim(b'.m, b'.cache, b'.open, b'.frames)
    requires var t := g.rules[name].tokens[pos];
      && Delta(t) == 0
      && (t.Reference? && t.text !in g.rules[name].parameters ==> t.text in b.cache)
    ensures Reading(g, name, arg, b', pos + 1)
  {
    hide Body, Stands, StandsForFrame, StandsForFrames, MentionsWithin, Resume, ReadItems;
    DepthNext(g.rules[name].tokens, pos);
    ResumeTop(g, name, arg, b.frames, pos, next);
    forall j | 0 <= j < |b.frames| ensures b'.frames[j].fn == b.frames[j].fn {
    }
    MentionedNext(g, name, b.cache.Keys, b.frames, b'.frames, pos);
  }

  lemma TopIsListOrPending(m: Machine, cache: map<string, Id>, open: set<Id>, frames: seq<Frame>)
    requires Sim(m, cache, open, frames)
    ensures if TopFrame(frames).pending then m.nodes[Top(m)].Choice? && |m.stack| > 1 else m.nodes[Top(m)].List?
  {
  }

  // ---------- literals and references ----------

  /** The new open set once a matcher was added on top: a choice is then finished. */
  ghost function OpenAfterAdd(b: Build): set<Id>
    requires MachineOk(b.m) && (!b.doomed ==> FramesOk(b.frames))
  {
    if !b.doomed && TopFrame(b.frames).pending then b.open - {Top(b.m)} else b.open
  }

  lemma AddKeeps(g: Source, name: string, base: nat, pending: set<string>, b: Build, id: Id) returns (b': Build)
    requires FactoryOk(g, b.m.nodes, b.cache, b.open, pending) && id < |b.m.nodes|
    requires name in g.rules && StackOk(g, name, base, b.m, b.open)
    requires if b.doomed then Lists(b.m.nodes, b.m.stack) >= 1 else Sim(b.m, b.cache, b.open, b.frames)
    ensures AddChild(b.m, id).Some? && b'.m == AddChild(b.m, id).value && b'.cache == b.cache
    ensures b'.open == OpenAfterAdd(b) && b'.doomed == b.doomed && b'.frames == b.frames
    ensures FactoryOk(g, b'.m.nodes, b.cache, b'.open, pending) && StackOk(g, name, base, b'.m, b'.open)
    ensures Lists(b'.m.nodes, b'.m.stack) == Lists(b.m.nodes, b.m.stack) && OnlyFrom(base, b, b')
  {
    hide Body, Resume, RuleDone, Stands, StandsForFrame, MentionsWithin, Mentioned;
    if b.doomed {
      ListsAtMost(b.m.nodes, b.m.stack[..|b.m.stack| - 1]);
    } else {
      TopIsListOrPending(b.m, b.cache, b.open, b.frames);
    }
    var open' := OpenAfterAdd(b);
    AddChildMachine(g, name, base, b.m, b.open, open', id);
    b' := b.(m := AddChild(b.m, id).value, open := open');
    assert Top(b.m) >= base by { assert b.m.stack[|b.m.stack| - 1].matcher >= base; }
    FactoryLater(g, b.m.nodes, b.cache, b.open, pending, b'.m.nodes, open');
    assert b.m.nodes[..base] <= b.m.nodes[..Top(b.m)];
  }

  lemma AddReads(g: Source, name: string, base: nat, pending: set<string>, b: Build, id: Id, e: Expr)
    requires Sim(b.m, b.cache, b.open, b.frames) && !b.doomed
    requires Stands(b.m.nodes, b.cache, b.open, id, e)
    ensures AddChild(b.m, id).Some?
    ensures Sim(AddChild(b.m, id).value, b.cache, OpenAfterAdd(b), AddToLast(b.frames, e))
  {
    if TopFrame(b.frames).pending {
      AddToChoiceSim(b.m, b.cache, b.open, b.frames, id, e);
    } else {
      AddToListSim(b.m, b.cache, b.open, b.frames, id, e);
    }
  }

  lemma AddKeepsRoot(m: Machine, id: Id)
    requires MachineOk(m)
    ensures AddChild(m, id).Some? ==>
      AddChild(m, id).value.stack != [] && AddChild(m, id).value.stack[0] == m.stack[0]
  {
  }

  lemma PrimaryReading(g: Source, name: string, arg: Option<Expr>, base: nat, pending: set<string>, b: Build, pos: nat,
                       id: Id)
    requires LoopInv(g, name, arg, base, pending, b, pos) && pos < |g.rules[name].tokens| && !b.doomed
    requires var t := g.rules[name].tokens[pos];
      && (t.Literal? || t.Reference?)
      && Stands(b.m.nodes, b.cache, b.open, id, Primary(g, name, arg, t))
      && (t.Reference? && t.text !in g.rules[name].parameters ==> t.text in b.cache)
    ensures AddChild(b.m, id).Some? && FramesOk(b.frames)
    ensures var e := Primary(g, name, arg, g.rules[name].tokens[pos]);
      Reading(g, name, arg,
              Build(AddChild(b.m, id).value, b.cache, OpenAfterAdd(b), AddToLast(b.frames, e), false), pos + 1)
  {
    hide Body, Stands, StandsForFrame, StandsForFrames, MentionsWithin, Resume, Mentioned, FactoryOk, StackOk;
    var e := Primary(g, name, arg, g.rules[name].tokens[pos]);
    AddReads(g, name, base, pending, b, id, e);
    var top := TopFrame(b.frames);
    var next := Frame(Add(top.items, top.pending, e), false, top.fn);
    TopReading(g, name, arg, b, pos, next,
               Build(AddChild(b.m, id).value, b.cache, OpenAfterAdd(b), AddToLast(b.frames, e), false));
  }

  lemma PrimaryStep(g: Source, name: string, arg: Option<Expr>, base: nat, pending: set<string>, b: Build, pos: nat,
                    id: Id) returns (b': Build)
    requires LoopInv(g, name, arg, base, pending, b, pos) && pos < |g.rules[name].tokens| && id < |b.m.nodes|
    requires var t := g.rules[name].tokens[pos];
      && (t.Literal? || t.Reference?)
      && (!b.doomed ==> Stands(b.m.nodes, b.cache, b.open, id, Primary(g, name, arg, t)))
      && (t.Reference? && t.text !in g.rules[name].parameters ==> t.text in b.cache)
    ensures AddChild(b.m, id).Some? && b'.m == AddChild(b.m, id).value && b'.cache == b.cache
    ensures MachineOk(b.m) && b'.m.stack != [] && b'.m.stack[0] == b.m.stack[0]
    ensures LoopInv(g, name, arg, base, pending, b', pos + 1) && OnlyFrom(base, b, b')
  {
    hide Body, Stands, MentionsWithin, FactoryOk, Lists, AddChild, OpenAfterAdd, Depth, Resume, Mentioned;
    AddKeepsRoot(b.m, id);
    assert Depth(g.rules[name].tokens[..pos]) >= 0;
    b' := AddKeeps(g, name, base, pending, b, id);
    DepthNext(g.rules[name].tokens, pos);
    if !b.doomed {
      PrimaryReading(g, name, arg, base, pending, b, pos, id);
      b' := b'.(frames := AddToLast(b.frames, Primary(g, name, arg, g.rules[name].tokens[pos])));
    }
  }

  // ---------- operators ----------

  lemma NotStep(g: Source, name: string, arg: Option<Expr>, base: nat, pending: set<string>, b: Build, pos: nat)
    requires LoopInv(g, name, arg, base, pending, b, pos) && pos < |g.rules[name].tokens|
    requires g.rules[name].tokens[pos] == Operator('!')
    ensures LoopInv(g, name, arg, base, pending, b, pos + 1)
  {
    hide Body, Stands, StandsForFrames, MentionsWithin, FactoryOk, StackOk, Lists, Depth, Resume, Mentioned;
    DepthNext(g.rules[name].tokens, pos);
    if !b.doomed {
      assert Below(b.frames) + [TopFrame(b.frames)] == b.frames;
      TopReading(g, name, arg, b, pos, TopFrame(b.frames), b);
    }
  }

  /** '?', '*' and '/' need an item in the topmost list. */
  lemma NoLastItem(g: Source, name: string, arg: Option<Expr>, base: nat, pending: set<string>, b: Build, pos: nat)
    requires LoopInv(g, name, arg, base, pending, b, pos) && pos < |g.rules[name].tokens|
    requires g.rules[name].tokens[pos] in [Operator('?'), Operator('*'), Operator('/')] && !HasLast(b.m)
    ensures Body(g, name, arg).None?
  {
    hide Body, Stands, StandsForFrame, StandsForFrames, MentionsWithin, FactoryOk, Lists, Depth, Mentioned;
    if !b.doomed {
      HasLastSim(b.m, b.cache, b.open, b.frames);
    }
  }

  ghost function QuantifiedBuild(b: Build, op: char): Build
    requires MachineOk(b.m) && HasLast(b.m)
  {
    b.(m := if op == '?' then MakeOptional(b.m) else MakeRepeated(b.m))
  }

  lemma QuantifierKeeps(g: Source, name: string, base: nat, pending: set<string>, b: Build, op: char)
    requires FactoryOk(g, b.m.nodes, b.cache, b.open, pending)
    requires name in g.rules && StackOk(g, name, base, b.m, b.open) && HasLast(b.m)
    ensures var b' := QuantifiedBuild(b, op);
      && FactoryOk(g, b'.m.nodes, b.cache, b.open, pending) && StackOk(g, name, base, b'.m, b.open)
      && Lists(b'.m.nodes, b'.m.stack) == Lists(b.m.nodes, b.m.stack) && OnlyFrom(base, b, b')
  {
    hide Body, RuleDone, Stands, MentionsWithin, Lists;
    var b' := QuantifiedBuild(b, op);
    var added := if op == '?' then [Optional(Last(b.m))] else [Repeat(Last(b.m)), Optional(|b.m.nodes|)];
    ReplaceLastMachine(g, name, base, b.m, b.open, added);
    assert Top(b.m) >= base by { assert b.m.stack[|b.m.stack| - 1].matcher >= base; }
    FactoryLater(g, b.m.nodes, b.cache, b.open, pending, b'.m.nodes, b.open);
    assert b.m.nodes[..base] <= b.m.nodes[..Top(b.m)];
  }

  lemma QuantifierReading(g: Source, name: string, arg: Option<Expr>, base: nat, pending: set<string>, b: Build,
                          pos: nat, op: char) returns (frames': seq<Frame>)
    requires LoopInv(g, name, arg, base, pending, b, pos) && pos < |g.rules[name].tokens| && !b.doomed
    requires g.rules[name].tokens[pos] == Operator(op) && (op == '?' || op == '*') && HasLast(b.m)
    ensures Reading(g, name, arg, QuantifiedBuild(b, op).(frames := frames'), pos + 1)
  {
    hide Body, Stands, StandsForFrame, StandsForFrames, MentionsWithin, Resume, Mentioned, StackOk;
    HasLastSim(b.m, b.cache, b.open, b.frames);
    var top := TopFrame(b.frames);
    var k := |top.items| - 1;
    var e := if op == '?' then Opt(top.items[k]) else Opt(Rep(top.items[k]));
    var next := top.(items := top.items[..k] + [e]);
    frames' := Below(b.frames) + [next];
    if op == '?' {
      OptionalSim(b.m, b.cache, b.open, b.frames);
    } else {
      RepeatedSim(b.m, b.cache, b.open, b.frames);
    }
    TopReading(g, name, arg, b, pos, next, QuantifiedBuild(b, op).(frames := frames'));
  }

  lemma QuantifierStep(g: Source, name: string, arg: Option<Expr>, base: nat, pending: set<string>, b: Build, pos: nat,
                       op: char) returns (b': Build)
    requires LoopInv(g, name, arg, base, pending, b, pos) && pos < |g.rules[name].tokens|
    requires g.rules[name].tokens[pos] == Operator(op) && (op == '?' || op == '*') && HasLast(b.m)
    ensures b'.m == QuantifiedBuild(b, op).m && b'.cache == b.cache && b'.m.stack == b.m.stack
    ensures LoopInv(g, name, arg, base, pending, b', pos + 1) && OnlyFrom(base, b, b')
  {
    hide Body, Stands, MentionsWithin, FactoryOk, Lists, Depth, Resume, Mentioned, Sim;
    QuantifierKeeps(g, name, base, pending, b, op);
    DepthNext(g.rules[name].tokens, pos);
    b' := QuantifiedBuild(b, op);
    if !b.doomed {
      var frames' := QuantifierReading(g, name, arg, base, pending, b, pos, op);
      b' := b'.(frames := frames');
    }
  }

  ghost function ChoiceBuild(b: Build): Build
    requires MachineOk(b.m) && HasLast(b.m)
  {
    b.(m := MakeChoice(b.m), open := b.open + {|b.m.nodes|})
  }

  lemma OrKeeps(g: Source, name: string, base: nat, pending: set<string>, b: Build)
    requires FactoryOk(g, b.m.nodes, b.cache, b.open, pending) && base <= |b.m.nodes|
    requires name in g.rules && StackOk(g, name, base, b.m, b.open) && HasLast(b.m)
    ensures var b' := ChoiceBuild(b);
      && FactoryOk(g, b'.m.nodes, b.cache, b'.open, pending) && StackOk(g, name, base, b'.m, b'.open)
      && Lists(b'.m.nodes, b'.m.stack) == Lists(b.m.nodes, b.m.stack) && OnlyFrom(base, b, b')
  {
    hide Body, RuleDone, Stands, MentionsWithin, Lists;
    var b' := ChoiceBuild(b);
    MakeChoiceMachine(g, name, base, b.m, b.open);
    assert Top(b.m) >= base by { assert b.m.stack[|b.m.stack| - 1].matcher >= base; }
    FactoryLater(g, b.m.nodes, b.cache, b.open, pending, b'.m.nodes, b'.open);
    assert b.m.nodes[..base] <= b.m.nodes[..Top(b.m)];
  }

  lemma OrReading(g: Source, name: string, arg: Option<Expr>, base: nat, pending: set<string>, b: Build, pos: nat)
      returns (frames': seq<Frame>)
    requires LoopInv(g, name, arg, base, pending, b, pos) && pos < |g.rules[name].tokens| && !b.doomed
    requires g.rules[name].tokens[pos] == Operator('/') && HasLast(b.m)
    ensures Reading(g, name, arg, ChoiceBuild(b).(frames := frames'), pos + 1)
  {
    hide Body, Stands, StandsForFrame, StandsForFrames, MentionsWithin, Resume, Mentioned, StackOk;
    HasLastSim(b.m, b.cache, b.open, b.frames);
    var next := TopFrame(b.frames).(pending := true);
    frames' := Below(b.frames) + [next];
    ChoiceSim(b.m, b.cache, b.open, b.frames);
    TopReading(g, name, arg, b, pos, next, ChoiceBuild(b).(frames := frames'));
  }

  lemma OrStep(g: Source, name: string, arg: Option<Expr>, base: nat, pending: set<string>, b: Build, pos: nat)
      returns (b': Build)
    requires LoopInv(g, name, arg, base, pending, b, pos) && pos < |g.rules[name].tokens| && base <= |b.m.nodes|
    requires g.rules[name].tokens[pos] == Operator('/') && HasLast(b.m)
    ensures b'.m == MakeChoice(b.m) && b'.cache == b.cache && b'.m.stack[0] == b.m.stack[0]
    ensures LoopInv(g, name, arg, base, pending, b', pos + 1) && OnlyFrom(base, b, b')
  {
    hide Body, Stands, MentionsWithin, FactoryOk, Lists, Depth, Resume, Mentioned, Sim;
    OrKeeps(g, name, base, pending, b);
    DepthNext(g.rules[name].tokens, pos);
    b' := ChoiceBuild(b);
    if !b.doomed {
      var frames' := OrReading(g, name, arg, base, pending, b, pos);
      b' := b'.(frames := frames');
    }
  }

  // ---------- opening brackets ----------

  ghost function OpenBuild(b: Build, fn: string): Build {
    b.(m := Open(b.m, fn), open := b.open + {|b.m.nodes|}, frames := b.frames + [Frame([], false, fn)])
  }

  lemma OpenKeeps(g: Source, name: string, base: nat, pending: set<string>, b: Build, fn: string)
    requires FactoryOk(g, b.m.nodes, b.cache, b.open, pending) && base <= |b.m.nodes|
    requires name in g.rules && StackOk(g, name, base, b.m, b.open)
    requires fn == "" || FunctionCall(fn) in g.rules[name].tokens
    ensures var b' := OpenBuild(b, fn);
      && FactoryOk(g, b'.m.nodes, b.cache, b'.open, pending) && StackOk(g, name, base, b'.m, b'.open)
      && Lists(b'.m.nodes, b'.m.stack) == Lists(b.m.nodes, b.m.stack) + 1 && OnlyFrom(base, b, b')
  {
    hide Body, RuleDone, Stands, MentionsWithin, Lists;
    var b' := OpenBuild(b, fn);
    OpenMachine(g, name, base, b.m, b.open, fn);
    FactoryLater(g, b.m.nodes, b.cache, b.open, pending, b'.m.nodes, b'.open);
  }

  lemma OpenReading(g: Source, name: string, arg: Option<Expr>, b: Build, pos: nat, fn: string)
    requires g.Valid() && name in g.rules && pos < |g.rules[name].tokens|
    requires g.rules[name].parameters != [] ==> arg.Some?
    requires Reading(g, name, arg, b, pos)
    requires var t := g.rules[name].tokens[pos];
      if fn == "" then t == Operator('(') else t == FunctionCall(fn)
    ensures Reading(g, name, arg, OpenBuild(b, fn), pos + 1)
  {
    hide Body, Stands, StandsForFrame, StandsForFrames, MentionsWithin, Resume, ReadItems;
    DepthNext(g.rules[name].tokens, pos);
    OpenSim(b.m, b.cache, b.open, b.frames, fn);
    ResumeOpen(g, name, arg, b.frames, pos, fn);
    var frames' := b.frames + [Frame([], false, fn)];
    forall j | 0 <= j < |b.frames| ensures frames'[j].fn == b.frames[j].fn {
    }
    assert frames'[|b.frames|].fn == fn;
    MentionedNext(g, name, b.cache.Keys, b.frames, frames', pos);
  }

  lemma OpenStep(g: Source, name: string, arg: Option<Expr>, base: nat, pending: set<string>, b: Build, pos: nat,
                 fn: string) returns (b': Build)
    requires LoopInv(g, name, arg, base, pending, b, pos) && pos < |g.rules[name].tokens| && base <= |b.m.nodes|
    requires var t := g.rules[name].tokens[pos];
      if fn == "" then t == Operator('(') else t == FunctionCall(fn)
    ensures b'.m == Open(b.m, fn) && b'.cache == b.cache
    ensures LoopInv(g, name, arg, base, pending, b', pos + 1) && OnlyFrom(base, b, b')
  {
    hide Body, Stands, MentionsWithin, FactoryOk, StackOk, Lists, Depth, Resume, Mentioned, Sim;
    OpenKeeps(g, name, base, pending, b, fn);
    DepthNext(g.rules[name].tokens, pos);
    b' := OpenBuild(b, fn);
    if !b.doomed {
      OpenReading(g, name, arg, b, pos, fn);
    }
  }

  // ---------- closing brackets ----------

  ghost function Popped(m: Machine): Machine
    requires MachineOk(m)
  {
    m.(stack := m.stack[..|m.stack| - 1])
  }

  /** The build with the closed bracket taken off, before its matcher is added one level down. */
  ghost function PoppedBuild(b: Build): Build
    requires MachineOk(b.m) && (!b.doomed ==> FramesOk(b.frames))
  {
    if !b.doomed && !TopFrame(b.frames).pending then
      b.(m := Popped(b.m), open := b.open - {Top(b.m)}, frames := Below(b.frames))
    else b.(m := Popped(b.m), doomed := true)
  }

  lemma BracketIsOpen(g: Source, name: string, arg: Option<Expr>, base: nat, pending: set<string>, b: Build, pos: nat)
    requires LoopInv(g, name, arg, base, pending, b, pos) && pos < |g.rules[name].tokens|
    requires g.rules[name].tokens[pos] == Operator(')')
    ensures |b.m.stack| > 1 && (!b.doomed ==> |b.frames| > 1)
  {
    hide Body, Stands, StandsForFrame, MentionsWithin, FactoryOk, Depth, Resume, Mentioned;
    DepthNext(g.rules[name].tokens, pos);
    assert Depth(g.rules[name].tokens[..pos + 1]) >= 0;
    if b.doomed {
      ListsAtMost(b.m.nodes, b.m.stack);
    } else {
      ListsOfFrames(b.m.nodes, b.cache, b.open, b.m.stack, b.frames);
      ListsAtMost(b.m.nodes, b.m.stack);
    }
  }

  lemma PopKeeps(g: Source, name: string, base: nat, pending: set<string>, b: Build)
    requires FactoryOk(g, b.m.nodes, b.cache, b.open, pending)
    requires name in g.rules && StackOk(g, name, base, b.m, b.open) && |b.m.stack| > 1
    requires !b.doomed ==> FramesOk(b.frames)
    ensures var b1 := PoppedBuild(b);
      && FactoryOk(g, b1.m.nodes, b.cache, b1.open, pending) && StackOk(g, name, base, b1.m, b1.open)
      && OnlyFrom(base, b, b1)
      && Lists(b1.m.nodes, b1.m.stack) == Lists(b.m.nodes, b.m.stack) - (if b.m.nodes[Top(b.m)].List? then 1 else 0)
  {
    hide Body, RuleDone, Stands, MentionsWithin, Lists;
    var b1 := PoppedBuild(b);
    PopMachine(g, name, base, b.m, b.open, b1.open);
    FactoryLater(g, b.m.nodes, b.cache, b.open, pending, b1.m.nodes, b1.open);
    assert Top(b.m) >= base by { assert b.m.stack[|b.m.stack| - 1].matcher >= base; }
  }

  lemma PopReads(b: Build)
    requires !b.doomed && Sim(b.m, b.cache, b.open, b.frames) && |b.frames| > 1 && |b.m.stack| > 1
    requires Lists(b.m.nodes, b.m.stack[..|b.m.stack| - 1])
             == Lists(b.m.nodes, b.m.stack) - (if b.m.nodes[Top(b.m)].List? then 1 else 0)
    ensures var b1 := PoppedBuild(b);
      if b1.doomed then Lists(b1.m.nodes, b1.m.stack) == |b.frames| else Sim(b1.m, b.cache, b1.open, b1.frames)
  {
    hide Stands, StandsForFrame, Lists;
    TopIsListOrPending(b.m, b.cache, b.open, b.frames);
    ListsOfFrames(b.m.nodes, b.cache, b.open, b.m.stack, b.frames);
    if !TopFrame(b.frames).pending {
      CloseSim(b.m, b.cache, b.open, b.frames);
    }
  }

  /** Matcher `id` is what the closed bracket stands for. */
  ghost predicate Closes(g: Source, b: Build, id: Id, e: Expr)
    requires g.Valid() && MachineOk(b.m) && FramesOk(b.frames)
  {
    var top := TopFrame(b.frames);
    && Finished(g, top.fn, top.items) == Some(e)
    && Stands(b.m.nodes, b.cache, b.open - {Top(b.m)}, id, e)
    && (top.fn != "" ==> top.fn in g.rules && MentionsWithin(g, top.fn, b.cache.Keys))
  }

  lemma CloseMentions(g: Source, name: string, b: Build, pos: nat, e: Expr)
    requires g.Valid() && name in g.rules && pos < |g.rules[name].tokens| && |b.frames| > 1 && FramesOk(b.frames)
    requires Mentioned(g, name, b.cache.Keys, b.frames, pos) && g.rules[name].tokens[pos] == Operator(')')
    requires var fn := TopFrame(b.frames).fn; fn != "" ==> fn in g.rules && MentionsWithin(g, fn, b.cache.Keys)
    ensures Mentioned(g, name, b.cache.Keys, AddToLast(Below(b.frames), e), pos + 1)
  {
    var frames' := AddToLast(Below(b.frames), e);
    forall j | 0 <= j < |frames'| ensures frames'[j].fn == b.frames[j].fn {
    }
    forall k | 0 <= k < pos + 1 && var t := g.rules[name].tokens[k];
                 t.FunctionCall? && t.text in g.rules && !MentionsWithin(g, t.text, b.cache.Keys)
      ensures exists j :: 0 <= j < |frames'| && frames'[j].fn == g.rules[name].tokens[k].text
    {
      var t := g.rules[name].tokens[k];
      assert TokenOk(t);
      var j :| 0 <= j < |b.frames| && b.frames[j].fn == t.text;
      assert j < |frames'| && frames'[j].fn == t.text;
    }
  }

  lemma CloseReading(g: Source, name: string, arg: Option<Expr>, base: nat, pending: set<string>, b: Build, pos: nat,
                     id: Id, e: Expr)
    requires LoopInv(g, name, arg, base, pending, b, pos) && pos < |g.rules[name].tokens|
    requires g.rules[name].tokens[pos] == Operator(')') && !b.doomed && |b.frames| > 1
    requires !TopFrame(b.frames).pending && Closes(g, b, id, e)
    ensures var b1 := PoppedBuild(b);
      && Sim(b1.m, b1.cache, b1.open, b1.frames) && AddChild(b1.m, id).Some?
      && Reading(g, name, arg,
                 Build(AddChild(b1.m, id).value, b.cache, OpenAfterAdd(b1), AddToLast(b1.frames, e), false), pos + 1)
  {
    hide Body, Stands, StandsForFrame, StandsForFrames, MentionsWithin, FactoryOk, StackOk, Resume, Mentioned, Finished;
    CloseSim(b.m, b.cache, b.open, b.frames);
    var b1 := PoppedBuild(b);
    AddReads(g, name, base, pending, b1, id, e);
    DepthNext(g.rules[name].tokens, pos);
    ResumeClose(g, name, arg, b.frames, pos);
    CloseMentions(g, name, b, pos, e);
  }

  lemma CloseStep(g: Source, name: string, arg: Option<Expr>, base: nat, pending: set<string>, b: Build, pos: nat,
                  id: Id, e: Expr) returns (b': Build)
    requires LoopInv(g, name, arg, base, pending, b, pos) && pos < |g.rules[name].tokens| && id < |b.m.nodes|
    requires g.rules[name].tokens[pos] == Operator(')')
    requires !b.doomed && !TopFrame(b.frames).pending ==> Closes(g, b, id, e)
    ensures |b.m.stack| > 1 && MachineOk(Popped(b.m)) && AddChild(Popped(b.m), id).Some?
    ensures b'.m == AddChild(Popped(b.m), id).value && b'.cache == b.cache
    ensures b'.m.stack != [] && b'.m.stack[0] == b.m.stack[0]
    ensures LoopInv(g, name, arg, base, pending, b', pos + 1) && OnlyFrom(base, b, b')
  {
    hide Stands, StandsForFrames, MentionsWithin, FactoryOk, Lists, Depth, Resume, Mentioned, Closes, AddChild, Body;
    BracketIsOpen(g, name, arg, base, pending, b, pos);
    DepthNext(g.rules[name].tokens, pos);
    assert Depth(g.rules[name].tokens[..pos + 1]) >= 0;
    PopKeeps(g, name, base, pending, b);
    if !b.doomed {
      PopReads(b);
    }
    var b1 := PoppedBuild(b);
    AddKeepsRoot(b1.m, id);
    b' := AddKeeps(g, name, base, pending, b1, id);
    if !b.doomed {
      if TopFrame(b.frames).pending {
        ResumeClose(g, name, arg, b.frames, pos);
      } else {
        CloseReading(g, name, arg, base, pending, b, pos, id, e);
        b' := b'.(frames := AddToLast(b1.frames, e));
      }
    }
  }

  /** A call of a function that cannot be read makes the rule unreadable. */
  lemma CloseFails(g: Source, name: string, arg: Option<Expr>, base: nat, pending: set<string>, b: Build, pos: nat)
    requires LoopInv(g, name, arg, base, pending, b, pos) && pos < |g.rules[name].tokens|
    requires g.rules[name].tokens[pos] == Operator(')')
    requires !b.doomed ==> Finished(g, TopFrame(b.frames).fn, TopFrame(b.frames).items).None?
    ensures Body(g, name, arg).None?
  {
    hide Stands, StandsForFrames, MentionsWithin, FactoryOk, Lists, Depth, Resume, Mentioned, Body, Finished;
    if !b.doomed {
      ResumeClose(g, name, arg, b.frames, pos);
    }
  }

  // ---------- the beginning, the end, and growth of the factory in between ----------

  /** Other rules are built while this one is on hold: the factory grows and nothing that exists changes. */
  lemma MentionedGrows(g: Source, name: string, known: set<string>, more: set<string>, frames: seq<Frame>, pos: nat)
    requires g.Valid() && name in g.rules && pos <= |g.rules[name].tokens| && known <= more
    requires Mentioned(g, name, known, frames, pos)
    ensures Mentioned(g, name, more, frames, pos)
  {
    hide MentionsWithin;
    forall k | 0 <= k < pos && var t := g.rules[name].tokens[k];
                 t.FunctionCall? && t.text in g.rules && MentionsWithin(g, t.text, known)
      ensures MentionsWithin(g, g.rules[name].tokens[k].text, more)
    {
      MentionsMore(g, g.rules[name].tokens[k].text, known, more);
    }
  }

  lemma StackGrows(g: Source, name: string, base: nat, m: Machine, open: set<Id>, nodes': Graph)
    requires g.Valid() && name in g.rules && StackOk(g, name, base, m, open) && m.nodes <= nodes'
    ensures StackOk(g, name, base, m.(nodes := nodes'), open)
    ensures Lists(nodes', m.stack) == Lists(m.nodes, m.stack)
  {
    ListsSame(m.nodes, nodes', m.stack);
  }

  lemma SimGrows(m: Machine, cache: map<string, Id>, open: set<Id>, frames: seq<Frame>, nodes': Graph,
                 cache': map<string, Id>)
    requires Sim(m, cache, open, frames) && m.nodes <= nodes' && SubMap(cache, cache') && UnderConstruction(m, open)
    requires Closed(m.nodes) && Closed(nodes') && Allocated(nodes', open)
    ensures Sim(m.(nodes := nodes'), cache', open, frames)
  {
    hide StandsForFrame, Stands;
    FramesLater(m.nodes, cache, open, nodes', cache', open, m.stack, frames);
  }

  lemma GrowStep(g: Source, name: string, arg: Option<Expr>, base: nat, pending: set<string>, b: Build, pos: nat,
                 nodes': Graph, cache': map<string, Id>) returns (b': Build)
    requires LoopInv(g, name, arg, base, pending, b, pos)
    requires FactoryOk(g, nodes', cache', b.open, pending) && b.m.nodes <= nodes' && SubMap(b.cache, cache')
    ensures b' == b.(m := b.m.(nodes := nodes'), cache := cache')
    ensures LoopInv(g, name, arg, base, pending, b', pos) && OnlyFrom(base, b, b')
  {
    hide Sim, Mentioned, Lists, Depth, Resume, Body;
    assert UnderConstruction(b.m, b.open);
    hide StackOk;
    b' := b.(m := b.m.(nodes := nodes'), cache := cache');
    assert Closed(b.m.nodes) && Closed(nodes') && Allocated(nodes', b.open);
    hide FactoryOk, Closed, Allocated;
    StackGrows(g, name, base, b.m, b.open, nodes');
    if !b.doomed {
      SimGrows(b.m, b.cache, b.open, b.frames, nodes', cache');
      assert b.cache.Keys <= cache'.Keys;
      MentionedGrows(g, name, b.cache.Keys, cache'.Keys, b.frames, pos);
    }
  }

  lemma CacheGrows(g: Source, nodes: Graph, cache: map<string, Id>, open: set<Id>, pending: set<string>,
                   name: string, id: Id)
    requires FactoryOk(g, nodes, cache, open, pending) && id < |nodes| && name !in cache
    ensures FactoryOk(g, nodes, cache[name := id], open, pending + {name})
  {
    hide Body, MentionsWithin, Stands;
    var cache' := cache[name := id];
    forall n | n in cache && n !in g.builtins && n !in pending ensures RuleDone(g, nodes, cache', open, n) {
      StandsLater(nodes, cache, open, nodes, cache', open, cache[n], Body(g, n, None).value);
      MentionsMore(g, n, cache.Keys, cache'.Keys);
    }
  }

  /** The build of a rule as it begins, with an empty list as its root. */
  ghost function StartBuild(nodes: Graph, cache: map<string, Id>, open: set<Id>): Build {
    Build(Machine(nodes + [List([])], [Entry(|nodes|, "")]), cache, open + {|nodes|}, [Frame([], false, "")], false)
  }

  lemma StartStep(g: Source, name: string, arg: Option<Expr>, pending: set<string>, nodes: Graph,
                  cache: map<string, Id>, open: set<Id>)
    requires g.Valid() && name in g.rules && |g.rules[name].parameters| == (if arg.Some? then 1 else 0)
    requires Allocated(nodes, open)
    requires FactoryOk(g, nodes + [List([])], cache, open + {|nodes|}, pending)
    ensures LoopInv(g, name, arg, |nodes|, pending, StartBuild(nodes, cache, open), 0)
  {
    hide MentionsWithin, RuleDone, ReadItems;
    var b := StartBuild(nodes, cache, open);
    assert b.m.nodes[|nodes|] == List([]);
    assert Below(b.frames) == [] && b.m.stack[..0] == [];
    assert StandsForFrames(b.m.nodes, cache, b.open, [], []);
    assert StandsForFrame(b.m.nodes, cache, b.open, b.m.stack[0], |nodes|, b.frames[0]);
  }

  lemma NewRoot(g: Source, nodes: Graph, cache: map<string, Id>, open: set<Id>, pending: set<string>)
    requires FactoryOk(g, nodes, cache, open, pending)
    ensures FactoryOk(g, nodes + [List([])], cache, open + {|nodes|}, pending)
  {
    hide Body, MentionsWithin, Stands, RuleDone;
    var nodes' := nodes + [List([])];
    forall i | 0 <= i < |nodes'| ensures RefersBelow(nodes'[i], |nodes'|) {
      if i < |nodes| { assert RefersBelow(nodes[i], |nodes|); }
    }
    FactoryLater(g, nodes, cache, open, pending, nodes', open + {|nodes|});
  }

  lemma OneFrame(nodes: Graph, cache: map<string, Id>, open: set<Id>, stack: seq<Entry>, frames: seq<Frame>)
    requires StandsForFrames(nodes, cache, open, stack, frames) && |frames| == 1
    ensures |stack| == Width(frames[0])
  {
    hide StandsForFrame;
    var n := |stack| - Width(frames[0]);
    assert StandsForFrames(nodes, cache, open, stack[..n], frames[..|frames| - 1]);
    assert frames[..|frames| - 1] == [];
    assert |stack[..n]| == 0;
  }

  /** At the end exactly one matcher is left on the stack, or else the rule cannot be read. */
  lemma EndStep(g: Source, name: string, arg: Option<Expr>, base: nat, pending: set<string>, b: Build)
    requires name in g.rules && LoopInv(g, name, arg, base, pending, b, |g.rules[name].tokens|)
    ensures |b.m.stack| != 1 ==> Body(g, name, arg).None?
    ensures |b.m.stack| == 1 ==>
      && Body(g, name, arg).Some?
      && Later(b.m.nodes, b.open, b.m.nodes, b.open - {Top(b.m)})
      && Stands(b.m.nodes, b.cache, b.open - {Top(b.m)}, Top(b.m), Body(g, name, arg).value)
      && MentionsWithin(g, name, b.cache.Keys)
  {
    hide Body, Stands, StandsForFrame, FactoryOk;
    var tokens := g.rules[name].tokens;
    assert tokens[..|tokens|] == tokens;
    ListsAtMost(b.m.nodes, b.m.stack);
    if b.doomed {
      assert Depth(tokens[..|tokens|]) >= 0;
    } else {
      ListsOfFrames(b.m.nodes, b.cache, b.open, b.m.stack, b.frames);
      if |b.frames| == 1 && !TopFrame(b.frames).pending {
        OneFrame(b.m.nodes, b.cache, b.open, b.m.stack, b.frames);
        FinishedList(b.m, b.cache, b.open, b.frames);
        forall t | t in tokens && t.FunctionCall? && t.text in g.rules ensures MentionsWithin(g, t.text, b.cache.Keys) {
          assert TokenOk(t);
        }
      }
    }
  }

  /** The rule is finished: nothing of it is under construction any more. */
  lemma FinishRule(g: Source, name: string, arg: Option<Expr>, base: nat, pending: set<string>, pending': set<string>,
                   open: set<Id>, b: Build)
    requires name in g.rules && LoopInv(g, name, arg, base, pending', b, |g.rules[name].tokens|) && |b.m.stack| == 1
    requires (forall k :: k in open ==> k < base) && forall k :: k < base ==> (k in open <==> k in b.open)
    requires if arg.Some? then pending' == pending
             else pending' == pending + {name} && name in b.cache && b.cache[name] == Top(b.m)
    ensures FactoryOk(g, b.m.nodes, b.cache, open, pending) && Body(g, name, arg).Some?
    ensures Stands(b.m.nodes, b.cache, open, Top(b.m), Body(g, name, arg).value)
    ensures MentionsWithin(g, name, b.cache.Keys)
  {
    hide Body, Stands, MentionsWithin, Reading, Lists, Depth;
    EndStep(g, name, arg, base, pending', b);
    var root, nodes := Top(b.m), b.m.nodes;
    assert root >= base by { assert b.m.stack[0].matcher >= base; }
    StandsLater(nodes, b.cache, b.open - {root}, nodes, b.cache, open, root, Body(g, name, arg).value);
    FactoryLater(g, nodes, b.cache, b.open, pending', nodes, open);
  }

  /** A bracket that is not a call stands for the group of its items. */
  lemma BracketCloses(g: Source, name: string, arg: Option<Expr>, base: nat, pending: set<string>, b: Build, pos: nat)
    requires LoopInv(g, name, arg, base, pending, b, pos) && b.m.stack[|b.m.stack| - 1].fn == ""
    ensures !b.doomed && !TopFrame(b.frames).pending ==> Closes(g, b, Top(b.m), Seq(TopFrame(b.frames).items))
  {
    hide Body, Stands, MentionsWithin, Resume, Mentioned, Lists, Depth, FactoryOk, Group;
    if !b.doomed && !TopFrame(b.frames).pending {
      FinishedList(b.m, b.cache, b.open, b.frames);
      assert b.m.stack[|b.m.stack| - 1].fn == TopFrame(b.frames).fn;
    }
  }

  /** The items collected on top of the stack, as one argument: the only item itself, or a new list of them. */
  lemma CallArgument(g: Source, name: string, arg: Option<Expr>, base: nat, pending: set<string>, b: Build, pos: nat)
    requires LoopInv(g, name, arg, base, pending, b, pos) && b.m.stack[|b.m.stack| - 1].fn != "" && !b.doomed
    ensures FramesOk(b.frames)
    ensures !TopFrame(b.frames).pending && TopFrame(b.frames).fn == b.m.stack[|b.m.stack| - 1].fn
    ensures b.m.nodes[Top(b.m)].List?
    ensures var cs, argument := b.m.nodes[Top(b.m)].children, Argument(TopFrame(b.frames).items);
      if |cs| == 1 then Stands(b.m.nodes, b.cache, b.open, cs[0], argument)
      else Stands(b.m.nodes + [List(cs)], b.cache, b.open, |b.m.nodes|, argument)
  {
    hide Body, MentionsWithin, Resume, Mentioned, Lists, Depth, Group, RuleDone;
    var top, cs := TopFrame(b.frames), b.m.nodes[Top(b.m)].children;
    var nodes' := b.m.nodes + [List(cs)];
    if |cs| != 1 {
      forall k | 0 <= k < |cs| ensures Stands(nodes', b.cache, b.open, cs[k], top.items[k]) {
        StandsLater(b.m.nodes, b.cache, b.open, nodes', b.cache, b.open, cs[k], top.items[k]);
      }
    }
  }

  /** The matcher of the call, built from the argument, closes the bracket. */
  lemma CallCloses(g: Source, b: Build, id: Id)
    requires g.Valid() && MachineOk(b.m) && FramesOk(b.frames)
    requires var f, argument := TopFrame(b.frames).fn, Argument(TopFrame(b.frames).items);
      && f != "" && f in g.rules && MentionsWithin(g, f, b.cache.Keys)
      && Body(g, f, Some(argument)).Some?
      && Stands(b.m.nodes, b.cache, b.open, id, Body(g, f, Some(argument)).value)
    ensures Closes(g, b, id, Body(g, TopFrame(b.frames).fn, Some(Argument(TopFrame(b.frames).items))).value)
  {
    hide Body, Stands, MentionsWithin;
    var e := Body(g, TopFrame(b.frames).fn, Some(Argument(TopFrame(b.frames).items))).value;
    StandsLater(b.m.nodes, b.cache, b.open, b.m.nodes, b.cache, b.open - {Top(b.m)}, id, e);
  }
}
