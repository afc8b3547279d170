/** The operations on the stack of matchers, and that each does what its token says to the items read so far. */
module RuleMachine {
  import opened Options
  import opened MatcherGraph
  import opened RuleReading
  import opened RuleStack

  datatype Machine = Machine(nodes: Graph, stack: seq<Entry>)

  ghost predicate MachineOk(m: Machine) {
    && m.stack != [] && Ascending(m.stack)
    && forall i :: 0 <= i < |m.stack| ==> m.stack[i].matcher < |m.nodes|
  }

  ghost function Top(m: Machine): (t: Id)
    requires MachineOk(m)
    ensures t < |m.nodes|
  {
    m.stack[|m.stack| - 1].matcher
  }

  /** Adds a matcher to the topmost list, or as the second alternative of the topmost choice, which is then done. */
  ghost function AddChild(m: Machine, child: Id): Option<Machine>
    requires MachineOk(m)
  {
    match m.nodes[Top(m)]
    case List(cs) => Some(m.(nodes := m.nodes[Top(m) := List(cs + [child])]))
    case Choice(cs) =>
      if |m.stack| <= 1 then None
      else Some(Machine(m.nodes[Top(m) := Choice(cs + [child])], m.stack[..|m.stack| - 1]))
    case _ => None
  }

  function Open(m: Machine, fn: string): Machine {
    Machine(m.nodes + [List([])], m.stack + [Entry(|m.nodes|, fn)])
  }

  ghost predicate HasLast(m: Machine)
    requires MachineOk(m)
  {
    m.nodes[Top(m)].List? && m.nodes[Top(m)].children != []
  }

  ghost function Last(m: Machine): Id
    requires MachineOk(m) && HasLast(m)
  {
    var cs := m.nodes[Top(m)].children;
    cs[|cs| - 1]
  }

  /** Appends `added` to the matchers and puts the last of them in place of the topmost list's last item. */
  ghost function ReplaceLast(m: Machine, added: seq<Matcher>): Machine
    requires MachineOk(m) && HasLast(m)
  {
    var cs := m.nodes[Top(m)].children;
    m.(nodes := (m.nodes + added)[Top(m) := List(cs[..|cs| - 1] + [|m.nodes| + |added| - 1])])
  }

  ghost function MakeOptional(m: Machine): Machine
    requires MachineOk(m) && HasLast(m)
  {
    ReplaceLast(m, [Optional(Last(m))])
  }

  ghost function MakeRepeated(m: Machine): Machine
    requires MachineOk(m) && HasLast(m)
  {
    ReplaceLast(m, [Repeat(Last(m)), Optional(|m.nodes|)])
  }

  ghost function MakeChoice(m: Machine): Machine
    requires MachineOk(m) && HasLast(m)
  {
    ReplaceLast(m, [Choice([Last(m)])]).(stack := m.stack + [Entry(|m.nodes|, "")])
  }

  // ---------- simulation ----------

  /** The machine stands for the frames. */
  ghost predicate Sim(m: Machine, cache: map<string, Id>, open: set<Id>, frames: seq<Frame>) {
    MachineOk(m) && FramesOk(frames) && StandsForFrames(m.nodes, cache, open, m.stack, frames)
  }

  ghost predicate UnderConstruction(m: Machine, open: set<Id>) {
    forall i :: 0 <= i < |m.stack| ==> m.stack[i].matcher in open
  }

  lemma {:induction false} SimUnderConstruction(
    nodes: Graph, cache: map<string, Id>, open: set<Id>, stack: seq<Entry>, frames: seq<Frame>)
    requires StandsForFrames(nodes, cache, open, stack, frames)
    ensures forall i :: 0 <= i < |stack| ==> stack[i].matcher in open
    decreases |frames|
  {
    hide Stands;
    if frames != [] {
      var f := frames[|frames| - 1];
      var n := |stack| - Width(f);
      SimUnderConstruction(nodes, cache, open, stack[..n], frames[..|frames| - 1]);
      hide StandsForFrames;
      forall i | 0 <= i < |stack| ensures stack[i].matcher in open {
        assert i < n ==> stack[..n][i] == stack[i];
      }
    }
  }

  function Below(frames: seq<Frame>): seq<Frame>
    requires frames != []
  {
    frames[..|frames| - 1]
  }

  function TopFrame(frames: seq<Frame>): Frame
    requires frames != []
  {
    frames[|frames| - 1]
  }

  /** The frames below the topmost one stay as they are when only matchers from the topmost frame on change. */
  lemma BelowLater(m: Machine, cache: map<string, Id>, open: set<Id>, frames: seq<Frame>, nodes': Graph, open': set<Id>)
    requires Sim(m, cache, open, frames)
    requires Later(m.nodes, open, nodes', open')
    requires forall i :: 0 <= i < m.stack[|m.stack| - Width(TopFrame(frames))].matcher ==>
      nodes'[i] == m.nodes[i] && (i in open ==> i in open')
    ensures var n := |m.stack| - Width(TopFrame(frames));
      StandsForFrames(nodes', cache, open', m.stack[..n], Below(frames))
  {
    var n := |m.stack| - Width(TopFrame(frames));
    SimUnderConstruction(m.nodes, cache, open, m.stack[..n], Below(frames));
    FramesLater(m.nodes, cache, open, nodes', cache, open', m.stack[..n], Below(frames));
  }

  lemma OnTop(nodes: Graph, cache: map<string, Id>, open: set<Id>, stack: seq<Entry>, below: seq<Frame>, f: Frame)
    requires |stack| >= Width(f)
    requires var n := |stack| - Width(f);
      && StandsForFrames(nodes, cache, open, stack[..n], below)
      && StandsForFrame(nodes, cache, open, stack[n], stack[|stack| - 1].matcher, f)
      && (f.pending ==> stack[n + 1].fn == "")
    ensures StandsForFrames(nodes, cache, open, stack, below + [f])
  {
    hide StandsForFrame;
    assert Below(below + [f]) == below;
  }

  /** What the topmost frame and those below it stand for. */
  lemma OfTop(nodes: Graph, cache: map<string, Id>, open: set<Id>, stack: seq<Entry>, frames: seq<Frame>)
    requires frames != [] && StandsForFrames(nodes, cache, open, stack, frames)
    ensures var f := TopFrame(frames);
      var n := |stack| - Width(f);
      && n >= 0
      && StandsForFrames(nodes, cache, open, stack[..n], Below(frames))
      && StandsForFrame(nodes, cache, open, stack[n], stack[|stack| - 1].matcher, f)
      && (f.pending ==> stack[n + 1].fn == "")
  {
    hide StandsForFrame;
  }

  lemma FramesOkOnTop(frames: seq<Frame>, f: Frame)
    requires FramesOk(frames) && FrameOk(f)
    ensures FramesOk(Below(frames) + [f])
  {
  }

  /** When the topmost frame changes and the matchers below it do not, the machine stands for the frames again. */
  lemma SimFrom(m: Machine, cache: map<string, Id>, open: set<Id>, frames: seq<Frame>, m': Machine, open': set<Id>,
                f: Frame)
    requires Sim(m, cache, open, frames) && MachineOk(m') && Later(m.nodes, open, m'.nodes, open') && FrameOk(f)
    requires |m'.stack| - Width(f) == |m.stack| - Width(TopFrame(frames)) >= 0
    requires var n := |m.stack| - Width(TopFrame(frames));
      && m'.stack[..n] == m.stack[..n] && m'.stack[n] == m.stack[n]
      && (forall i :: 0 <= i < m.stack[n].matcher ==> m'.nodes[i] == m.nodes[i] && (i in open ==> i in open'))
      && StandsForFrame(m'.nodes, cache, open', m.stack[n], m'.stack[|m'.stack| - 1].matcher, f)
      && (f.pending ==> m'.stack[n + 1].fn == "")
    ensures Sim(m', cache, open', Below(frames) + [f])
  {
    FramesOkOnTop(frames, f);
    hide StandsForFrames, StandsForFrame, Later, FramesOk, Ascending;
    BelowLater(m, cache, open, frames, m'.nodes, open');
    OnTop(m'.nodes, cache, open', m'.stack, Below(frames), f);
  }

  lemma AddShape(m: Machine, id: Id)
    requires MachineOk(m) && AddChild(m, id).Some?
    ensures var m' := AddChild(m, id).value;
      && MachineOk(m') && |m'.nodes| == |m.nodes| && (forall i :: 0 <= i < Top(m) ==> m'.nodes[i] == m.nodes[i])
      && m'.stack == if m.nodes[Top(m)].List? then m.stack else m.stack[..|m.stack| - 1]
  {
  }

  lemma ListFrame(m: Machine, cache: map<string, Id>, open: set<Id>, f: Frame, id: Id, e: Expr)
    requires MachineOk(m) && !f.pending && Stands(m.nodes, cache, open, id, e)
    requires StandsForFrame(m.nodes, cache, open, m.stack[|m.stack| - 1], Top(m), f)
    ensures AddChild(m, id).Some?
    ensures var m' := AddChild(m, id).value;
      && Later(m.nodes, open, m'.nodes, open)
      && StandsForFrame(m'.nodes, cache, open, m.stack[|m.stack| - 1], Top(m), Frame(f.items + [e], false, f.fn))
  {
    var m' := AddChild(m, id).value;
    var ids := m.nodes[Top(m)].children;
    var items := f.items + [e];
    assert Later(m.nodes, open, m'.nodes, open);
    forall i | 0 <= i < |ids| + 1 ensures Stands(m'.nodes, cache, open, (ids + [id])[i], items[i]) {
      if i < |ids| {
        StandsLater(m.nodes, cache, open, m'.nodes, cache, open, ids[i], f.items[i]);
      } else {
        StandsLater(m.nodes, cache, open, m'.nodes, cache, open, id, e);
      }
    }
    hide Stands, Later;
  }

  lemma AddToListSim(m: Machine, cache: map<string, Id>, open: set<Id>, frames: seq<Frame>, id: Id, e: Expr)
    requires Sim(m, cache, open, frames) && !TopFrame(frames).pending
    requires Stands(m.nodes, cache, open, id, e)
    ensures AddChild(m, id).Some?
    ensures var m' := AddChild(m, id).value;
      Later(m.nodes, open, m'.nodes, open) && Sim(m', cache, open, AddToLast(frames, e))
  {
    hide Stands, StandsForFrames, Later, Ascending;
    var f := TopFrame(frames);
    OfTop(m.nodes, cache, open, m.stack, frames);
    assert m.nodes[Top(m)].List?;
    hide StandsForFrame;
    ListFrame(m, cache, open, f, id, e);
    AddShape(m, id);
    SimFrom(m, cache, open, frames, AddChild(m, id).value, open, Frame(f.items + [e], false, f.fn));
  }

  /** A choice with its second alternative is finished. */
  lemma FinishedChoice(m: Machine, cache: map<string, Id>, open: set<Id>, frames: seq<Frame>, id: Id, e: Expr)
    requires Sim(m, cache, open, frames) && TopFrame(frames).pending
    requires Stands(m.nodes, cache, open, id, e)
    ensures AddChild(m, id).Some?
    ensures var m', open', items := AddChild(m, id).value, open - {Top(m)}, TopFrame(frames).items;
      && Later(m.nodes, open, m'.nodes, open')
      && Stands(m'.nodes, cache, open', Top(m), Alt(items[|items| - 1], e))
  {
    var f, c := TopFrame(frames), Top(m);
    var first := m.nodes[c].options[0];
    var m', open' := AddChild(m, id).value, open - {c};
    StandsLater(m.nodes, cache, open, m'.nodes, cache, open', first, f.items[|f.items| - 1]);
    StandsLater(m.nodes, cache, open, m'.nodes, cache, open', id, e);
    assert m'.nodes[c].options == [first, id];
  }

  lemma ChoiceFrame(m: Machine, cache: map<string, Id>, open: set<Id>, frames: seq<Frame>, id: Id, e: Expr)
    requires Sim(m, cache, open, frames) && TopFrame(frames).pending
    requires Stands(m.nodes, cache, open, id, e)
    ensures AddChild(m, id).Some?
    ensures var m', open', f := AddChild(m, id).value, open - {Top(m)}, TopFrame(frames);
      var entry := m.stack[|m.stack| - 2];
      StandsForFrame(m'.nodes, cache, open', entry, entry.matcher, Frame(Add(f.items, true, e), false, f.fn))
  {
    var f := TopFrame(frames);
    var l := m.stack[|m.stack| - 2].matcher;
    FinishedChoice(m, cache, open, frames, id, e);
    var m', open' := AddChild(m, id).value, open - {Top(m)};
    var ids, items := m.nodes[l].children, Add(f.items, true, e);
    assert l < Top(m);
    forall i | 0 <= i < |ids| ensures Stands(m'.nodes, cache, open', ids[i], items[i]) {
      if i < |ids| - 1 {
        StandsLater(m.nodes, cache, open, m'.nodes, cache, open', ids[i], f.items[i]);
      }
    }
  }

  lemma AddToChoiceSim(m: Machine, cache: map<string, Id>, open: set<Id>, frames: seq<Frame>, id: Id, e: Expr)
    requires Sim(m, cache, open, frames) && TopFrame(frames).pending
    requires Stands(m.nodes, cache, open, id, e)
    ensures AddChild(m, id).Some?
    ensures var m', open' := AddChild(m, id).value, open - {Top(m)};
      Later(m.nodes, open, m'.nodes, open') && Sim(m', cache, open', AddToLast(frames, e))
  {
    hide Stands, StandsForFrames, Later;
    var f := TopFrame(frames);
    var n := |m.stack| - 2;
    OfTop(m.nodes, cache, open, m.stack, frames);
    assert m.nodes[Top(m)].Choice? && m.stack[n].matcher < Top(m);
    hide StandsForFrame;
    FinishedChoice(m, cache, open, frames, id, e);
    ChoiceFrame(m, cache, open, frames, id, e);
    AddShape(m, id);
    hide AddChild, Ascending, Sim;
    SimFrom(m, cache, open, frames, AddChild(m, id).value, open - {Top(m)}, Frame(Add(f.items, true, e), false, f.fn));
  }

  lemma OpenShape(m: Machine, open: set<Id>, fn: string)
    requires MachineOk(m)
    ensures var m' := Open(m, fn);
      && MachineOk(m') && Later(m.nodes, open, m'.nodes, open + {|m.nodes|}) && m'.stack[..|m.stack|] == m.stack
      && forall i :: 0 <= i < |m.nodes| ==> m'.nodes[i] == m.nodes[i]
  {
  }

  lemma OpenSim(m: Machine, cache: map<string, Id>, open: set<Id>, frames: seq<Frame>, fn: string)
    requires Sim(m, cache, open, frames)
    ensures var m', open' := Open(m, fn), open + {|m.nodes|};
      Later(m.nodes, open, m'.nodes, open') && Sim(m', cache, open', frames + [Frame([], false, fn)])
  {
    hide Stands, StandsForFrames, Later, Ascending;
    var m', open' := Open(m, fn), open + {|m.nodes|};
    SimUnderConstruction(m.nodes, cache, open, m.stack, frames);
    OpenShape(m, open, fn);
    FramesLater(m.nodes, cache, open, m'.nodes, cache, open', m.stack, frames);
    OnTop(m'.nodes, cache, open', m'.stack, frames, Frame([], false, fn));
  }

  /** A bracket is taken off the stack; its list is now finished. */
  lemma CloseSim(m: Machine, cache: map<string, Id>, open: set<Id>, frames: seq<Frame>)
    requires Sim(m, cache, open, frames) && !TopFrame(frames).pending && |frames| > 1
    ensures var m', open' := m.(stack := m.stack[..|m.stack| - 1]), open - {Top(m)};
      && Later(m.nodes, open, m.nodes, open') && Sim(m', cache, open', Below(frames))
      && Stands(m.nodes, cache, open', Top(m), Seq(TopFrame(frames).items))
      && m.stack[|m.stack| - 1].fn == TopFrame(frames).fn
  {
    var open' := open - {Top(m)};
    BelowLater(m, cache, open, frames, m.nodes, open');
    FinishedList(m, cache, open, frames);
    ListsOfFrames(m.nodes, cache, open, m.stack[..|m.stack| - 1], Below(frames));
  }

  lemma FinishedList(m: Machine, cache: map<string, Id>, open: set<Id>, frames: seq<Frame>)
    requires Sim(m, cache, open, frames) && !TopFrame(frames).pending
    ensures var open' := open - {Top(m)};
      Later(m.nodes, open, m.nodes, open') && Stands(m.nodes, cache, open', Top(m), Seq(TopFrame(frames).items))
  {
    var f := TopFrame(frames);
    var open' := open - {Top(m)};
    var ids := m.nodes[Top(m)].children;
    forall i | 0 <= i < |ids| ensures Stands(m.nodes, cache, open', ids[i], f.items[i]) {
      StandsLater(m.nodes, cache, open, m.nodes, cache, open', ids[i], f.items[i]);
    }
  }

  lemma ReplaceLastFrame(m: Machine, cache: map<string, Id>, open: set<Id>, f: Frame, added: seq<Matcher>, e: Expr)
    requires MachineOk(m) && HasLast(m) && !f.pending && added != []
    requires StandsForFrame(m.nodes, cache, open, m.stack[|m.stack| - 1], Top(m), f)
    requires var m' := ReplaceLast(m, added); Stands(m'.nodes, cache, open, |m'.nodes| - 1, e)
    ensures var m' := ReplaceLast(m, added);
      && Later(m.nodes, open, m'.nodes, open)
      && StandsForFrame(m'.nodes, cache, open, m.stack[|m.stack| - 1], Top(m),
                        f.(items := f.items[..|f.items| - 1] + [e]))
  {
    var m' := ReplaceLast(m, added);
    var ids := m.nodes[Top(m)].children;
    var items := f.items[..|f.items| - 1] + [e];
    assert Later(m.nodes, open, m'.nodes, open);
    forall i | 0 <= i < |ids| ensures Stands(m'.nodes, cache, open, m'.nodes[Top(m)].children[i], items[i]) {
      if i < |ids| - 1 {
        StandsLater(m.nodes, cache, open, m'.nodes, cache, open, ids[i], f.items[i]);
      }
    }
    hide Stands, Later;
  }

  lemma ReplaceShape(m: Machine, added: seq<Matcher>)
    requires MachineOk(m) && HasLast(m)
    ensures var m' := ReplaceLast(m, added);
      MachineOk(m') && m'.stack == m.stack && forall i :: 0 <= i < Top(m) ==> m'.nodes[i] == m.nodes[i]
  {
  }

  lemma ReplaceLastSim(m: Machine, cache: map<string, Id>, open: set<Id>, frames: seq<Frame>,
                       added: seq<Matcher>, e: Expr)
    requires Sim(m, cache, open, frames) && !TopFrame(frames).pending && TopFrame(frames).items != [] && added != []
    requires HasLast(m)
    requires var m' := ReplaceLast(m, added); Stands(m'.nodes, cache, open, |m'.nodes| - 1, e)
    ensures var m', f := ReplaceLast(m, added), TopFrame(frames);
      && Later(m.nodes, open, m'.nodes, open)
      && Sim(m', cache, open, Below(frames) + [f.(items := f.items[..|f.items| - 1] + [e])])
  {
    hide Stands, StandsForFrames, StandsForFrame, Later, Ascending;
    var f := TopFrame(frames);
    OfTop(m.nodes, cache, open, m.stack, frames);
    ReplaceLastFrame(m, cache, open, f, added, e);
    ReplaceShape(m, added);
    hide ReplaceLast;
    SimFrom(m, cache, open, frames, ReplaceLast(m, added), open, f.(items := f.items[..|f.items| - 1] + [e]));
  }

  lemma HasLastSim(m: Machine, cache: map<string, Id>, open: set<Id>, frames: seq<Frame>)
    requires Sim(m, cache, open, frames)
    ensures HasLast(m) <==> !TopFrame(frames).pending && TopFrame(frames).items != []
    ensures HasLast(m) ==> Stands(m.nodes, cache, open, Last(m), TopFrame(frames).items[|TopFrame(frames).items| - 1])
  {
  }

  /** Ids from |nodes| on are not under construction. */
  ghost predicate Allocated(nodes: Graph, open: set<Id>) {
    forall i :: i in open ==> i < |nodes|
  }

  lemma OptionalSim(m: Machine, cache: map<string, Id>, open: set<Id>, frames: seq<Frame>)
    requires Sim(m, cache, open, frames) && HasLast(m) && Allocated(m.nodes, open)
    requires !TopFrame(frames).pending && TopFrame(frames).items != []
    ensures var m', f := MakeOptional(m), TopFrame(frames);
      && Later(m.nodes, open, m'.nodes, open)
      && Sim(m', cache, open,
             Below(frames) + [f.(items := f.items[..|f.items| - 1] + [Opt(f.items[|f.items| - 1])])])
  {
    var f := TopFrame(frames);
    var last := f.items[|f.items| - 1];
    var m' := MakeOptional(m);
    HasLastSim(m, cache, open, frames);
    StandsLater(m.nodes, cache, open, m'.nodes, cache, open, Last(m), last);
    assert m'.nodes[|m.nodes|] == Optional(Last(m));
    ReplaceLastSim(m, cache, open, frames, [Optional(Last(m))], Opt(last));
  }

  lemma RepeatedSim(m: Machine, cache: map<string, Id>, open: set<Id>, frames: seq<Frame>)
    requires Sim(m, cache, open, frames) && HasLast(m) && Allocated(m.nodes, open)
    requires !TopFrame(frames).pending && TopFrame(frames).items != []
    ensures var m', f := MakeRepeated(m), TopFrame(frames);
      && Later(m.nodes, open, m'.nodes, open)
      && Sim(m', cache, open,
             Below(frames) + [f.(items := f.items[..|f.items| - 1] + [Opt(Rep(f.items[|f.items| - 1]))])])
  {
    var f := TopFrame(frames);
    var last := f.items[|f.items| - 1];
    var m' := MakeRepeated(m);
    var added := [Repeat(Last(m)), Optional(|m.nodes|)];
    HasLastSim(m, cache, open, frames);
    StandsLater(m.nodes, cache, open, m'.nodes, cache, open, Last(m), last);
    assert m'.nodes[|m.nodes|] == Repeat(Last(m)) && m'.nodes[|m.nodes| + 1] == Optional(|m.nodes|);
    assert Stands(m'.nodes, cache, open, |m.nodes|, Rep(last));
    ReplaceLastSim(m, cache, open, frames, added, Opt(Rep(last)));
  }

  lemma NewChoiceFrame(m: Machine, cache: map<string, Id>, open: set<Id>, frames: seq<Frame>)
    requires Sim(m, cache, open, frames) && HasLast(m) && Allocated(m.nodes, open)
    requires !TopFrame(frames).pending && TopFrame(frames).items != []
    ensures var m', open', f := MakeChoice(m), open + {|m.nodes|}, TopFrame(frames);
      && Later(m.nodes, open, m'.nodes, open')
      && StandsForFrame(m'.nodes, cache, open', m.stack[|m.stack| - 1], |m.nodes|, f.(pending := true))
  {
    var f := TopFrame(frames);
    var m', c := MakeChoice(m), |m.nodes|;
    var open' := open + {c};
    HasLastSim(m, cache, open, frames);
    var ids, ids' := m.nodes[Top(m)].children, m'.nodes[Top(m)].children;
    forall i | 0 <= i < |ids'| - 1 ensures Stands(m'.nodes, cache, open', ids'[i], f.items[i]) {
      StandsLater(m.nodes, cache, open, m'.nodes, cache, open', ids[i], f.items[i]);
    }
    StandsLater(m.nodes, cache, open, m'.nodes, cache, open', Last(m), f.items[|f.items| - 1]);
    assert m'.nodes[c] == Choice([Last(m)]);
  }

  lemma ChoiceShape(m: Machine)
    requires MachineOk(m) && HasLast(m)
    ensures var m' := MakeChoice(m);
      && MachineOk(m') && m'.stack == m.stack + [Entry(|m.nodes|, "")] && |m'.nodes| == |m.nodes| + 1
      && forall i :: 0 <= i < Top(m) ==> m'.nodes[i] == m.nodes[i]
  {
  }

  lemma ChoiceSim(m: Machine, cache: map<string, Id>, open: set<Id>, frames: seq<Frame>)
    requires Sim(m, cache, open, frames) && HasLast(m) && Allocated(m.nodes, open)
    requires !TopFrame(frames).pending && TopFrame(frames).items != []
    ensures var m', open', f := MakeChoice(m), open + {|m.nodes|}, TopFrame(frames);
      && Later(m.nodes, open, m'.nodes, open')
      && Sim(m', cache, open', Below(frames) + [f.(pending := true)])
  {
    NewChoiceFrame(m, cache, open, frames);
    ChoiceShape(m);
    hide MakeChoice, Sim, Later, StandsForFrame, Ascending, FramesOk;
    SimFrom(m, cache, open, frames, MakeChoice(m), open + {|m.nodes|}, TopFrame(frames).(pending := true));
  }
}
