/** The stack of matchers under construction, and what it stands for. While a rule is built, its lists and
    choices are changed in place; all other matchers are finished and never change again. */
module RuleStack {
  import opened MatcherGraph
  import opened RuleReading

  /** A matcher under construction; `fn` names the function whose argument it collects, if any. */
  datatype Entry = Entry(matcher: Id, fn: string)

  // ---------- what a finished matcher stands for ----------

  /** Matcher `id` is the tree of `e`, built from matchers that are not under construction.
      A reference to a rule is the matcher cached under its name, whatever state that is in. */
  ghost predicate Stands(nodes: Graph, cache: map<string, Id>, open: set<Id>, id: Id, e: Expr)
    decreases e
  {
    id < |nodes| &&
    match e
    case Ref(name) => name in cache && cache[name] == id
    case Built(built) => built == id
    case Word(kind) => id !in open && nodes[id] == Leaf(kind)
    case Seq(items) =>
      && id !in open && nodes[id].List? && |nodes[id].children| == |items|
      && forall i :: 0 <= i < |items| ==> Stands(nodes, cache, open, nodes[id].children[i], items[i])
    case Alt(first, second) =>
      && id !in open && nodes[id].Choice? && |nodes[id].options| == 2
      && Stands(nodes, cache, open, nodes[id].options[0], first)
      && Stands(nodes, cache, open, nodes[id].options[1], second)
    case Opt(body) => id !in open && nodes[id].Optional? && Stands(nodes, cache, open, nodes[id].child, body)
    case Rep(body) => id !in open && nodes[id].Repeat? && Stands(nodes, cache, open, nodes[id].element, body)
  }

  ghost predicate SubMap(m: map<string, Id>, m': map<string, Id>) {
    forall n :: n in m ==> n in m' && m'[n] == m[n]
  }

  /** Finished matchers stay as they are and stay finished. */
  ghost predicate Later(nodes: Graph, open: set<Id>, nodes': Graph, open': set<Id>) {
    |nodes| <= |nodes'| && forall i :: 0 <= i < |nodes| && i !in open ==> nodes'[i] == nodes[i] && i !in open'
  }

  lemma {:induction false} StandsLater(
    nodes: Graph, cache: map<string, Id>, open: set<Id>, nodes': Graph, cache': map<string, Id>, open': set<Id>,
    id: Id, e: Expr)
    requires Stands(nodes, cache, open, id, e)
    requires Later(nodes, open, nodes', open') && SubMap(cache, cache')
    ensures Stands(nodes', cache', open', id, e)
    decreases e
  {
    match e
    case Ref(_) =>
    case Built(_) =>
    case Word(_) =>
    case Seq(items) =>
      forall i | 0 <= i < |items| ensures Stands(nodes', cache', open', nodes[id].children[i], items[i]) {
        StandsLater(nodes, cache, open, nodes', cache', open', nodes[id].children[i], items[i]);
      }
    case Alt(first, second) =>
      StandsLater(nodes, cache, open, nodes', cache', open', nodes[id].options[0], first);
      StandsLater(nodes, cache, open, nodes', cache', open', nodes[id].options[1], second);
    case Opt(body) => StandsLater(nodes, cache, open, nodes', cache', open', nodes[id].child, body);
    case Rep(body) => StandsLater(nodes, cache, open, nodes', cache', open', nodes[id].element, body);
  }

  // ---------- what the stack stands for ----------

  /** The list of an open bracket and, after '/', the choice `c` that is its last item. */
  ghost predicate StandsForFrame(
    nodes: Graph, cache: map<string, Id>, open: set<Id>, entry: Entry, c: Id, f: Frame)
  {
    && entry.matcher < |nodes| && entry.matcher in open && nodes[entry.matcher].List? && entry.fn == f.fn
    && var ids := nodes[entry.matcher].children;
    && |ids| == |f.items|
    && (forall i :: 0 <= i < (if f.pending then |ids| - 1 else |ids|) ==>
      Stands(nodes, cache, open, ids[i], f.items[i]))
    && (f.pending ==>
          && |ids| > 0 && ids[|ids| - 1] == c < |nodes| && c in open
          && nodes[c].Choice? && |nodes[c].options| == 1
          && Stands(nodes, cache, open, nodes[c].options[0], f.items[|ids| - 1]))
  }

  /** How many entries of the stack belong to frame `f`. */
  function Width(f: Frame): nat {
    if f.pending then 2 else 1
  }

  ghost predicate StandsForFrames(
    nodes: Graph, cache: map<string, Id>, open: set<Id>, stack: seq<Entry>, frames: seq<Frame>)
    decreases |frames|
  {
    if frames == [] then stack == []
    else
      var f := frames[|frames| - 1];
      var n := |stack| - Width(f);
      && n >= 0
      && StandsForFrame(nodes, cache, open, stack[n], stack[|stack| - 1].matcher, f)
      && (f.pending ==> stack[n + 1].fn == "")
      && StandsForFrames(nodes, cache, open, stack[..n], frames[..|frames| - 1])
  }

  ghost predicate Ascending(stack: seq<Entry>) {
    forall i, j :: 0 <= i < j < |stack| ==> stack[i].matcher < stack[j].matcher
  }

  /** The entries of the stack are as they were and still under construction. */
  ghost predicate SameOn(stack: seq<Entry>, nodes: Graph, nodes': Graph, open': set<Id>) {
    forall i :: 0 <= i < |stack| ==>
      && stack[i].matcher < |nodes| && stack[i].matcher < |nodes'| && stack[i].matcher in open'
      && nodes'[stack[i].matcher] == nodes[stack[i].matcher]
  }

  lemma FrameLater(
    nodes: Graph, cache: map<string, Id>, open: set<Id>, nodes': Graph, cache': map<string, Id>, open': set<Id>,
    entry: Entry, c: Id, f: Frame)
    requires StandsForFrame(nodes, cache, open, entry, c, f)
    requires Later(nodes, open, nodes', open') && SubMap(cache, cache')
    requires entry.matcher in open' && nodes'[entry.matcher] == nodes[entry.matcher]
    requires f.pending ==> c in open' && nodes'[c] == nodes[c]
    ensures StandsForFrame(nodes', cache', open', entry, c, f)
  {
    var ids := nodes[entry.matcher].children;
    forall i | 0 <= i < (if f.pending then |ids| - 1 else |ids|)
      ensures Stands(nodes', cache', open', ids[i], f.items[i])
    {
      StandsLater(nodes, cache, open, nodes', cache', open', ids[i], f.items[i]);
    }
    if f.pending {
      StandsLater(nodes, cache, open, nodes', cache', open', nodes[c].options[0], f.items[|ids| - 1]);
    }
  }

  lemma {:induction false} FramesLater(
    nodes: Graph, cache: map<string, Id>, open: set<Id>, nodes': Graph, cache': map<string, Id>, open': set<Id>,
    stack: seq<Entry>, frames: seq<Frame>)
    requires StandsForFrames(nodes, cache, open, stack, frames)
    requires Later(nodes, open, nodes', open') && SubMap(cache, cache') && SameOn(stack, nodes, nodes', open')
    ensures StandsForFrames(nodes', cache', open', stack, frames)
    decreases |frames|
  {
    if frames != [] {
      var f := frames[|frames| - 1];
      var n := |stack| - Width(f);
      FrameLater(nodes, cache, open, nodes', cache', open', stack[n], stack[|stack| - 1].matcher, f);
      FramesLater(nodes, cache, open, nodes', cache', open', stack[..n], frames[..|frames| - 1]);
    }
  }

  /** The number of lists, that is, of open brackets, on the stack. */
  ghost function Lists(nodes: Graph, stack: seq<Entry>): nat {
    if stack == [] then 0
    else
      var m := stack[|stack| - 1].matcher;
      Lists(nodes, stack[..|stack| - 1]) + (if m < |nodes| && nodes[m].List? then 1 else 0)
  }

  lemma {:induction false} ListsSame(nodes: Graph, nodes': Graph, stack: seq<Entry>)
    requires forall i :: 0 <= i < |stack| ==>
      && stack[i].matcher < |nodes| && stack[i].matcher < |nodes'|
      && nodes[stack[i].matcher].List? == nodes'[stack[i].matcher].List?
    ensures Lists(nodes', stack) == Lists(nodes, stack)
    decreases |stack|
  {
    if stack != [] {
      ListsSame(nodes, nodes', stack[..|stack| - 1]);
    }
  }

  lemma {:induction false} ListsAtMost(nodes: Graph, stack: seq<Entry>)
    ensures Lists(nodes, stack) <= |stack|
    decreases |stack|
  {
    if stack != [] {
      ListsAtMost(nodes, stack[..|stack| - 1]);
    }
  }

  lemma {:induction false} ListsOfFrames(
    nodes: Graph, cache: map<string, Id>, open: set<Id>, stack: seq<Entry>, frames: seq<Frame>)
    requires StandsForFrames(nodes, cache, open, stack, frames)
    ensures Lists(nodes, stack) == |frames| && (frames != [] ==> stack != [])
    decreases |frames|
  {
    if frames != [] {
      var f := frames[|frames| - 1];
      var n := |stack| - Width(f);
      ListsOfFrames(nodes, cache, open, stack[..n], frames[..|frames| - 1]);
      assert stack[..n + 1][..n] == stack[..n];
      if f.pending {
        assert stack[..|stack| - 1] == stack[..n + 1];
      } else {
        assert stack[..n + 1] == stack;
      }
    }
  }
}
