/**
 * The template optimizer: two passes over the element tree that find the
 * parts of a template that never change between renders. The first pass
 * marks every node `static` or not, bottom-up, and does not look inside
 * components; the second marks `staticRoot` (a static element worth
 * hoisting into a render function of its own) and `staticInFor` top-down.
 *
 * The tree is an arena: node `k` names its children and the blocks of its
 * `v-else-if`/`v-else` conditions by index, and its parent by index. The
 * three marks the passes write in place onto the node objects are three
 * maps from node index held by an `Ast` object; a missing entry is a
 * property that was never set (`undefined`).
 */
module Optimizer {
  import opened Wrappers
  import opened Strings

  /** The node kinds: 1 an element, 2 an expression, 3 plain text. */
  datatype NodeType = Element | Expression | Text

  /**
   * One AST node. `keys` is the set of its own property names, apart from
   * the three marks this module writes; `ifConditions` holds the block of
   * each condition, the first being the node itself.
   */
  datatype AstNode = AstNode(
    nodeType: NodeType,
    tag: string,
    keys: set<string>,
    parent: Option<nat>,
    children: seq<nat>,
    ifConditions: Option<seq<nat>>,
    hasBindings: bool,
    pre: bool,
    once: bool,
    hasIf: bool,
    hasFor: bool,
    inlineTemplate: bool)

  /** The condition blocks both passes visit: every one after the first. */
  function Blocks(node: AstNode): seq<nat>
  {
    match node.ifConditions
    case None => []
    case Some(bs) => if bs == [] then [] else bs[1..]
  }

  /** Every parent comes before its child in the arena. */
  predicate ParentsBelow(nodes: seq<AstNode>)
  {
    forall k :: 0 <= k < |nodes| && nodes[k].parent.Some? ==> nodes[k].parent.value < k
  }

  /** Every index in `cs` names a node after `k`. */
  predicate Above(nodes: seq<AstNode>, k: nat, cs: seq<nat>)
  {
    k < |nodes| && forall i :: 0 <= i < |cs| ==> k < cs[i] < |nodes|
  }

  /**
   * The links of node `k` agree with the parser: a child names `k` as its
   * parent, a condition block shares the parent of `k`.
   */
  predicate Linked(nodes: seq<AstNode>, k: nat)
    requires k < |nodes|
  {
    && Above(nodes, k, nodes[k].children)
    && Above(nodes, k, Blocks(nodes[k]))
    && (forall i :: 0 <= i < |nodes[k].children| ==> nodes[nodes[k].children[i]].parent == Some(k))
    && (forall i :: 0 <= i < |Blocks(nodes[k])| ==> nodes[Blocks(nodes[k])[i]].parent == nodes[k].parent)
  }

  /** The shape of the tree the parser hands to the optimizer. */
  predicate WellFormed(nodes: seq<AstNode>)
  {
    ParentsBelow(nodes) && forall k :: 0 <= k < |nodes| ==> Linked(nodes, k)
  }

  // ---------------------------------------------------------------------
  // Configuration

  /** What `optimize` takes from the compiler options, with defaults applied. */
  datatype Config = Config(staticKeys: set<string>, isReservedTag: string -> bool)

  /** The two compiler options the optimizer reads; either may be missing. */
  datatype CompilerOptions = CompilerOptions(staticKeys: Option<string>, isReservedTag: Option<string -> bool>)

  /** The property names every AST element may carry and still be static. */
  const BaseKeyList: seq<string> :=
    ["type", "tag", "attrsList", "attrsMap", "plain", "parent", "children", "attrs", "start", "end", "rawAttrsMap"]

  /** The same names as one comma-separated string. */
  const BaseKeys: string := Join(BaseKeyList, ",")

  function Names(parts: seq<string>): set<string>
  {
    set k | k in parts
  }

  /** `makeMap(str)`: a membership test for the names of a comma-separated list. */
  function MakeMap(str: string): set<string>
  {
    Names(Split(str, ','))
  }

  /**
   * `genStaticKeys(keys)`: a map over the base list followed by the
   * platform's own list, when it names any. The static keys are exactly
   * the base names and the names in `keys`.
   */
  function GenStaticKeys(keys: string): (r: set<string>)
    ensures r == Names(BaseKeyList) + (if keys == "" then {} else MakeMap(keys))
  {
    BaseKeysCommaFree();
    MakeMapAppend(BaseKeyList, keys);
    MakeMap(BaseKeys + (if keys != "" then "," + keys else ""))
  }

  /** No base name holds a comma. */
  lemma BaseKeysCommaFree()
    ensures forall k :: 0 <= k < |BaseKeyList| ==> ',' !in BaseKeyList[k]
  {
  }

  /** The names of two lists together. */
  lemma NamesAppend(a: seq<string>, b: seq<string>)
    ensures Names(a + b) == Names(a) + Names(b)
  {
  }

  /** Splitting a comma-joined list followed by `"," + keys` gives the list and then the pieces of `keys`. */
  lemma SplitAppend(base: seq<string>, keys: string)
    requires |base| >= 1 && forall k :: 0 <= k < |base| ==> ',' !in base[k]
    requires keys != ""
    ensures Split(Join(base, ",") + ("," + keys), ',') == base + Split(keys, ',')
  {
    var extra := Split(keys, ',');
    JoinSplit(keys, ',');
    assert Join(extra, ",") == keys;
    JoinAppend(base, extra, ",");
    assert Join(base + extra, ",") == Join(base, ",") + "," + keys;
    assert Join(base, ",") + "," + keys == Join(base, ",") + ("," + keys);
    CommaFreeConcat(base, extra);
    SplitJoin(base + extra, ',');
  }

  /** Two lists of comma-free names together are comma-free. */
  lemma CommaFreeConcat(a: seq<string>, b: seq<string>)
    requires forall k :: 0 <= k < |a| ==> ',' !in a[k]
    requires forall k :: 0 <= k < |b| ==> ',' !in b[k]
    ensures forall k :: 0 <= k < |a + b| ==> ',' !in (a + b)[k]
  {
    forall k | 0 <= k < |a + b| ensures ',' !in (a + b)[k] {
      if k >= |a| {
        assert (a + b)[k] == b[k - |a|];
      }
    }
  }

  /** Appending `"," + keys` to a comma-joined list adds the names in `keys`. */
  lemma MakeMapAppend(base: seq<string>, keys: string)
    requires |base| >= 1 && forall k :: 0 <= k < |base| ==> ',' !in base[k]
    ensures MakeMap(Join(base, ",") + (if keys != "" then "," + keys else ""))
         == Names(base) + (if keys == "" then {} else MakeMap(keys))
  {
    if keys == "" {
      assert Join(base, ",") + "" == Join(base, ",");
      SplitJoin(base, ',');
    } else {
      SplitAppend(base, keys);
      NamesAppend(base, Split(keys, ','));
    }
  }

  /** `optimize`'s defaults: no extra static keys, and no tag reserved. */
  function ConfigOf(options: CompilerOptions): (cfg: Config)
    ensures cfg.staticKeys == GenStaticKeys(match options.staticKeys case None => "" case Some(s) => s)
    ensures options.isReservedTag.None? ==> forall tag :: !cfg.isReservedTag(tag)
    ensures options.isReservedTag.Some? ==> cfg.isReservedTag == options.isReservedTag.value
  {
    Config(GenStaticKeys(match options.staticKeys case None => "" case Some(s) => s),
           match options.isReservedTag case None => (tag: string) => false case Some(f) => f)
  }

  /** `slot` and `component` are built into the compiler. */
  predicate IsBuiltInTag(tag: string)
  {
    tag == "slot" || tag == "component"
  }

  // ---------------------------------------------------------------------
  // isDirectChildOfTemplateFor

  /** Walking up through `<template>` ancestors, one of them carries `v-for`. */
  function TemplateForAbove(nodes: seq<AstNode>, k: nat): bool
    requires ParentsBelow(nodes) && k < |nodes|
    decreases k
  {
    match nodes[k].parent
    case None => false
    case Some(p) => nodes[p].tag == "template" && (nodes[p].hasFor || TemplateForAbove(nodes, p))
  }

  /** The loop of `isDirectChildOfTemplateFor`. */
  method IsDirectChildOfTemplateFor(nodes: seq<AstNode>, k: nat) returns (r: bool)
    requires ParentsBelow(nodes) && k < |nodes|
    ensures r == TemplateForAbove(nodes, k)
  {
    var node: nat := k;
    while nodes[node].parent.Some?
      invariant node < |nodes|
      invariant TemplateForAbove(nodes, node) == TemplateForAbove(nodes, k)
      decreases node
    {
      node := nodes[node].parent.value;
      if nodes[node].tag != "template" {
        return false;
      }
      if nodes[node].hasFor {
        return true;
      }
    }
    return false;
  }

  /** The `j`-th ancestor of node `k`, if the tree is that deep. */
  function Ancestor(nodes: seq<AstNode>, k: nat, j: nat): (a: Option<nat>)
    requires ParentsBelow(nodes) && k < |nodes|
    ensures a.Some? ==> a.value < |nodes|
    decreases j
  {
    if j == 0 then Some(k)
    else match nodes[k].parent
      case None => None
      case Some(p) => Ancestor(nodes, p, j - 1)
  }

  /** The ancestors 1 to `j` of node `k` all exist and are `<template>` elements. */
  predicate TemplatesUpTo(nodes: seq<AstNode>, k: nat, j: nat)
    requires ParentsBelow(nodes) && k < |nodes|
  {
    forall i :: 1 <= i <= j ==> Ancestor(nodes, k, i).Some? && nodes[Ancestor(nodes, k, i).value].tag == "template"
  }

  /** A `<template v-for>` above node `k`, reached through `<template>` elements only. */
  predicate TemplateForAt(nodes: seq<AstNode>, k: nat, j: nat)
    requires ParentsBelow(nodes) && k < |nodes|
  {
    1 <= j && TemplatesUpTo(nodes, k, j) && Ancestor(nodes, k, j).Some? && nodes[Ancestor(nodes, k, j).value].hasFor
  }

  /** The walk answers yes exactly when some ancestor is such a `<template v-for>`. */
  lemma TemplateForAboveIff(nodes: seq<AstNode>, k: nat)
    requires ParentsBelow(nodes) && k < |nodes|
    ensures TemplateForAbove(nodes, k) <==> exists j :: TemplateForAt(nodes, k, j)
  {
    if TemplateForAbove(nodes, k) {
      var j := TemplateForWitness(nodes, k);
    }
    if j :| TemplateForAt(nodes, k, j) {
      TemplateForFromWitness(nodes, k, j);
    }
  }

  lemma {:induction false} TemplateForWitness(nodes: seq<AstNode>, k: nat) returns (j: nat)
    requires ParentsBelow(nodes) && k < |nodes|
    requires TemplateForAbove(nodes, k)
    ensures TemplateForAt(nodes, k, j)
    decreases k
  {
    var p := nodes[k].parent.value;
    assert Ancestor(nodes, k, 1) == Some(p);
    if nodes[p].hasFor {
      j := 1;
    } else {
      var j' := TemplateForWitness(nodes, p);
      j := j' + 1;
      forall i | 1 <= i <= j
        ensures Ancestor(nodes, k, i).Some? && nodes[Ancestor(nodes, k, i).value].tag == "template"
      {
        assert Ancestor(nodes, k, i) == Ancestor(nodes, p, i - 1);
      }
      assert Ancestor(nodes, k, j) == Ancestor(nodes, p, j');
    }
  }

  lemma {:induction false} TemplateForFromWitness(nodes: seq<AstNode>, k: nat, j: nat)
    requires ParentsBelow(nodes) && k < |nodes|
    requires TemplateForAt(nodes, k, j)
    ensures TemplateForAbove(nodes, k)
    decreases k
  {
    assert Ancestor(nodes, k, 1).Some?;
    var p := nodes[k].parent.value;
    assert Ancestor(nodes, k, 1) == Some(p);
    if j > 1 {
      forall i | 1 <= i <= j - 1
        ensures Ancestor(nodes, p, i).Some? && nodes[Ancestor(nodes, p, i).value].tag == "template"
      {
        assert Ancestor(nodes, k, i + 1) == Ancestor(nodes, p, i);
      }
      assert Ancestor(nodes, k, j) == Ancestor(nodes, p, j - 1);
      TemplateForFromWitness(nodes, p, j - 1);
    }
  }

  // ---------------------------------------------------------------------
  // isStatic

  /** Whether a node on its own, apart from its children, can never change. */
  function IsStatic(nodes: seq<AstNode>, cfg: Config, k: nat): (r: bool)
    requires ParentsBelow(nodes) && k < |nodes|
    ensures nodes[k].nodeType == Expression ==> !r
    ensures nodes[k].nodeType == Text ==> r
    ensures r && nodes[k].nodeType == Element && !nodes[k].pre ==>
      && !nodes[k].hasBindings && !nodes[k].hasIf && !nodes[k].hasFor
      && nodes[k].tag != "slot" && nodes[k].tag != "component"
      && cfg.isReservedTag(nodes[k].tag) && nodes[k].keys <= cfg.staticKeys
  {
    var node := nodes[k];
    match node.nodeType
    case Expression => false
    case Text => true
    case Element =>
      node.pre ||
      (&& !node.hasBindings
       && !node.hasIf && !node.hasFor
       && !IsBuiltInTag(node.tag)
       && cfg.isReservedTag(node.tag)
       && !TemplateForAbove(nodes, k)
       && node.keys <= cfg.staticKeys)
  }

  /**
   * `isStatic` under `optimize`'s options: expressions never, text always,
   * `v-pre` elements always; any other element only without bindings,
   * `v-if` or `v-for`, with a reserved tag that is neither `slot` nor
   * `component`, with no `<template v-for>` reached through templates above
   * it, and with every key among the base keys or the extra ones.
   */
  lemma IsStaticRules(nodes: seq<AstNode>, options: CompilerOptions, k: nat)
    requires ParentsBelow(nodes) && k < |nodes|
    ensures var r, node := IsStatic(nodes, ConfigOf(options), k), nodes[k];
      && (node.nodeType == Expression ==> !r)
      && (node.nodeType == Text ==> r)
      && (node.nodeType == Element && node.pre ==> r)
      && (node.nodeType == Element && !node.pre ==>
            (r <==> && !node.hasBindings && !node.hasIf && !node.hasFor
                    && node.tag != "slot" && node.tag != "component"
                    && options.isReservedTag.Some? && options.isReservedTag.value(node.tag)
                    && !(exists j :: TemplateForAt(nodes, k, j))
                    && node.keys <= Names(BaseKeyList) +
                         (match options.staticKeys
                          case None => {}
                          case Some(s) => if s == "" then {} else MakeMap(s))))
  {
    TemplateForAboveIff(nodes, k);
  }

  // ---------------------------------------------------------------------
  // The first pass: markStatic

  /** A component's slot content is left for the component to decide on. */
  predicate IsComponent(cfg: Config, node: AstNode)
  {
    !cfg.isReservedTag(node.tag) && node.tag != "slot" && !node.inlineTemplate
  }

  /** The first pass looks inside elements that are not components. */
  predicate Descends(cfg: Config, node: AstNode)
  {
    node.nodeType == Element && !IsComponent(cfg, node)
  }

  /**
   * The mark the first pass gives node `k`: static on its own, and, unless
   * it is a component, every child and every later condition block static.
   */
  function StaticOf(nodes: seq<AstNode>, cfg: Config, k: nat): bool
    requires WellFormed(nodes) && k < |nodes|
    decreases |nodes| - k, 1
  {
    assert Linked(nodes, k);
    IsStatic(nodes, cfg, k) &&
    (Descends(cfg, nodes[k]) ==>
      AllStatic(nodes, cfg, k, nodes[k].children) && AllStatic(nodes, cfg, k, Blocks(nodes[k])))
  }

  /** Every node of `cs`, all of them below node `k`, is marked static. */
  function AllStatic(nodes: seq<AstNode>, cfg: Config, k: nat, cs: seq<nat>): bool
    requires WellFormed(nodes) && Above(nodes, k, cs)
    decreases |nodes| - k, 0, |cs|
  {
    if cs == [] then true
    else AllStatic(nodes, cfg, k, cs[..|cs| - 1]) && StaticOf(nodes, cfg, cs[|cs| - 1])
  }

  lemma {:induction false} AllStaticIff(nodes: seq<AstNode>, cfg: Config, k: nat, cs: seq<nat>)
    requires WellFormed(nodes) && Above(nodes, k, cs)
    ensures AllStatic(nodes, cfg, k, cs) <==> forall i :: 0 <= i < |cs| ==> StaticOf(nodes, cfg, cs[i])
    decreases |cs|
  {
    if cs != [] {
      AllStaticIff(nodes, cfg, k, cs[..|cs| - 1]);
    }
  }

  /** The nodes `markStatic(node k)` visits: `k`, and what it recurses into. */
  function Reached(nodes: seq<AstNode>, cfg: Config, k: nat): (r: set<nat>)
    requires WellFormed(nodes) && k < |nodes|
    ensures k in r
    ensures forall m :: m in r ==> k <= m < |nodes|
    decreases |nodes| - k, 1
  {
    assert Linked(nodes, k);
    {k} +
    (if Descends(cfg, nodes[k])
     then ReachedAll(nodes, cfg, k, nodes[k].children) + ReachedAll(nodes, cfg, k, Blocks(nodes[k]))
     else {})
  }

  /** The nodes visited from each of `cs`. */
  function ReachedAll(nodes: seq<AstNode>, cfg: Config, k: nat, cs: seq<nat>): (r: set<nat>)
    requires WellFormed(nodes) && Above(nodes, k, cs)
    ensures forall m :: m in r ==> k < m < |nodes|
    decreases |nodes| - k, 0, |cs|
  {
    if cs == [] then {}
    else ReachedAll(nodes, cfg, k, cs[..|cs| - 1]) + Reached(nodes, cfg, cs[|cs| - 1])
  }

  /** Each node of `visited` holds the mark the first pass gives it. */
  predicate MarkedStatic(nodes: seq<AstNode>, cfg: Config, marks: map<nat, bool>, visited: set<nat>)
    requires WellFormed(nodes)
  {
    forall m :: m in visited ==> m < |nodes| && m in marks && marks[m] == StaticOf(nodes, cfg, m)
  }

  /** Outside `touched`, `after` holds the entries of `before` and no others. */
  ghost predicate Unchanged(after: map<nat, bool>, before: map<nat, bool>, touched: set<nat>)
  {
    forall m :: m !in touched ==> (m in after <==> m in before) && (m in after ==> after[m] == before[m])
  }

  /**
   * A static node's whole visited subtree is static: the first pass only
   * marks a node static when everything it looked at below it is.
   */
  lemma {:induction false} StaticSubtree(nodes: seq<AstNode>, cfg: Config, k: nat)
    requires WellFormed(nodes) && k < |nodes|
    requires StaticOf(nodes, cfg, k)
    ensures forall m :: m in Reached(nodes, cfg, k) ==> StaticOf(nodes, cfg, m)
    decreases |nodes| - k, 1
  {
    assert Linked(nodes, k);
    if Descends(cfg, nodes[k]) {
      AllStaticSubtree(nodes, cfg, k, nodes[k].children);
      AllStaticSubtree(nodes, cfg, k, Blocks(nodes[k]));
    }
  }

  lemma {:induction false} AllStaticSubtree(nodes: seq<AstNode>, cfg: Config, k: nat, cs: seq<nat>)
    requires WellFormed(nodes) && Above(nodes, k, cs)
    requires AllStatic(nodes, cfg, k, cs)
    ensures forall m :: m in ReachedAll(nodes, cfg, k, cs) ==> StaticOf(nodes, cfg, m)
    decreases |nodes| - k, 0, |cs|
  {
    if cs != [] {
      AllStaticSubtree(nodes, cfg, k, cs[..|cs| - 1]);
      StaticSubtree(nodes, cfg, cs[|cs| - 1]);
    }
  }

  /** Visiting `cs[i]` extends what was visited of `cs[..i]` by its subtree. */
  lemma ChildVisited(nodes: seq<AstNode>, cfg: Config, k: nat, cs: seq<nat>, i: nat,
                     before: map<nat, bool>, visited: map<nat, bool>)
    requires WellFormed(nodes) && Above(nodes, k, cs) && i < |cs|
    requires k in before && MarkedStatic(nodes, cfg, before, ReachedAll(nodes, cfg, k, cs[..i]))
    requires MarkedStatic(nodes, cfg, visited, Reached(nodes, cfg, cs[i]))
    requires Unchanged(visited, before, Reached(nodes, cfg, cs[i]))
    ensures k in visited && visited[k] == before[k]
    ensures cs[i] in visited && visited[cs[i]] == StaticOf(nodes, cfg, cs[i])
    ensures AllStatic(nodes, cfg, k, cs[..i + 1]) == (AllStatic(nodes, cfg, k, cs[..i]) && StaticOf(nodes, cfg, cs[i]))
    ensures ReachedAll(nodes, cfg, k, cs[..i + 1]) == ReachedAll(nodes, cfg, k, cs[..i]) + Reached(nodes, cfg, cs[i])
    ensures MarkedStatic(nodes, cfg, visited, ReachedAll(nodes, cfg, k, cs[..i + 1]))
  {
    assert cs[..i + 1][..i] == cs[..i];
  }

  /**
   * Folding a child's mark into node `k`'s: the marks of what was visited
   * stay, and only what was visited and node `k` differ from the start.
   */
  lemma ChildFolded(nodes: seq<AstNode>, cfg: Config, k: nat, child: nat, start: map<nat, bool>,
                    before: map<nat, bool>, visited: map<nat, bool>, after: map<nat, bool>,
                    reachedBefore: set<nat>, reachedChild: set<nat>)
    requires WellFormed(nodes)
    requires Unchanged(before, start, reachedBefore + {k})
    requires Unchanged(visited, before, reachedChild)
    requires k in visited && child in visited
    requires MarkedStatic(nodes, cfg, visited, reachedBefore + reachedChild)
    requires k !in reachedBefore + reachedChild
    requires after == if visited[child] then visited else visited[k := false]
    ensures k in after && after[k] == (visited[k] && visited[child])
    ensures MarkedStatic(nodes, cfg, after, reachedBefore + reachedChild)
    ensures Unchanged(after, start, reachedBefore + reachedChild + {k})
  {
  }

  // ---------------------------------------------------------------------
  // The second pass: markStaticRoots

  /** The first pass left `static` set and true on node `m`. */
  predicate Marked(marks: map<nat, bool>, m: nat)
  {
    m in marks && marks[m]
  }

  /**
   * A static element worth its own render function: it has children, and
   * not just a single text node, which would cost more to hoist than to
   * render again.
   */
  predicate Qualifies(nodes: seq<AstNode>, marks: map<nat, bool>, k: nat)
    requires WellFormed(nodes) && k < |nodes|
  {
    assert Linked(nodes, k);
    var node := nodes[k];
    Marked(marks, k) && |node.children| > 0 &&
    !(|node.children| == 1 && nodes[node.children[0]].nodeType == Text)
  }

  /**
   * The nodes `markStaticRoots(node k)` writes to: the elements it reaches,
   * stopping below a node that qualifies.
   */
  function RootsReached(nodes: seq<AstNode>, marks: map<nat, bool>, k: nat): (r: set<nat>)
    requires WellFormed(nodes) && k < |nodes|
    ensures forall m :: m in r ==> k <= m < |nodes| && nodes[m].nodeType == Element
    ensures nodes[k].nodeType == Element <==> k in r
    decreases |nodes| - k, 1
  {
    assert Linked(nodes, k);
    if nodes[k].nodeType != Element then {}
    else if Qualifies(nodes, marks, k) then {k}
    else {k} + RootsReachedAll(nodes, marks, k, nodes[k].children) + RootsReachedAll(nodes, marks, k, Blocks(nodes[k]))
  }

  /** The nodes the second pass writes to from each of `cs`. */
  function RootsReachedAll(nodes: seq<AstNode>, marks: map<nat, bool>, k: nat, cs: seq<nat>): (r: set<nat>)
    requires WellFormed(nodes) && Above(nodes, k, cs)
    ensures forall m :: m in r ==> k < m < |nodes| && nodes[m].nodeType == Element
    decreases |nodes| - k, 0, |cs|
  {
    if cs == [] then {}
    else RootsReachedAll(nodes, marks, k, cs[..|cs| - 1]) + RootsReached(nodes, marks, cs[|cs| - 1])
  }

  /** A static element that qualifies is marked a root, and the pass goes no deeper. */
  lemma RootStopsDescent(nodes: seq<AstNode>, marks: map<nat, bool>, k: nat)
    requires WellFormed(nodes) && k < |nodes|
    requires nodes[k].nodeType == Element && Qualifies(nodes, marks, k)
    ensures RootsReached(nodes, marks, k) == {k}
  {
  }

  /** Walking up from node `m`, one of its ancestors has `stop` as its parent. */
  predicate Reaches(nodes: seq<AstNode>, m: nat, stop: Option<nat>)
    requires ParentsBelow(nodes) && m < |nodes|
    decreases m
  {
    nodes[m].parent == stop || (nodes[m].parent.Some? && Reaches(nodes, nodes[m].parent.value, stop))
  }

  /**
   * Some ancestor of node `m` carries `v-for`, among those met walking up
   * until the node whose parent is `stop`: the `v-for` loops whose children
   * hold `m`.
   */
  function ForBetween(nodes: seq<AstNode>, m: nat, stop: Option<nat>): bool
    requires ParentsBelow(nodes) && m < |nodes|
    decreases m
  {
    match nodes[m].parent
    case None => false
    case Some(p) => nodes[m].parent != stop && (nodes[p].hasFor || ForBetween(nodes, p, stop))
  }

  /** Whatever lies below node `x` comes after it. */
  lemma {:induction false} ReachesAfter(nodes: seq<AstNode>, m: nat, x: nat)
    requires ParentsBelow(nodes) && m < |nodes| && Reaches(nodes, m, Some(x))
    ensures x < m
    decreases m
  {
    if nodes[m].parent != Some(x) {
      ReachesAfter(nodes, nodes[m].parent.value, x);
    }
  }

  /** What lies below node `x` lies below the parent of `x`. */
  lemma {:induction false} ReachesUp(nodes: seq<AstNode>, m: nat, x: nat)
    requires ParentsBelow(nodes) && m < |nodes| && x < |nodes| && Reaches(nodes, m, Some(x))
    ensures Reaches(nodes, m, nodes[x].parent)
    decreases m
  {
    if nodes[m].parent != Some(x) {
      ReachesUp(nodes, nodes[m].parent.value, x);
    }
  }

  /** Walking one level further up adds the `v-for` of node `x` itself. */
  lemma {:induction false} ForThrough(nodes: seq<AstNode>, m: nat, x: nat)
    requires ParentsBelow(nodes) && m < |nodes| && x < |nodes| && Reaches(nodes, m, Some(x))
    ensures ForBetween(nodes, m, nodes[x].parent) == (ForBetween(nodes, m, Some(x)) || nodes[x].hasFor)
    decreases m
  {
    var p := nodes[m].parent.value;
    if nodes[m].parent != Some(x) {
      ReachesAfter(nodes, p, x);
      ForThrough(nodes, p, x);
    }
  }

  /** Every node the second pass writes to from node `k` lies below the parent of `k`. */
  lemma {:induction false} RootsReachUp(nodes: seq<AstNode>, marks: map<nat, bool>, k: nat)
    requires WellFormed(nodes) && k < |nodes|
    ensures forall m :: m in RootsReached(nodes, marks, k) ==> Reaches(nodes, m, nodes[k].parent)
    decreases |nodes| - k, 1
  {
    assert Linked(nodes, k);
    if nodes[k].nodeType == Element && !Qualifies(nodes, marks, k) {
      var below := RootsReachedAll(nodes, marks, k, nodes[k].children);
      RootsReachUpAll(nodes, marks, k, nodes[k].children, Some(k));
      forall m | m in below ensures Reaches(nodes, m, nodes[k].parent) {
        ReachesUp(nodes, m, k);
      }
      RootsReachUpAll(nodes, marks, k, Blocks(nodes[k]), nodes[k].parent);
    }
  }

  lemma {:induction false} RootsReachUpAll(nodes: seq<AstNode>, marks: map<nat, bool>, k: nat, cs: seq<nat>, stop: Option<nat>)
    requires WellFormed(nodes) && Above(nodes, k, cs)
    requires forall i :: 0 <= i < |cs| ==> nodes[cs[i]].parent == stop
    ensures forall m :: m in RootsReachedAll(nodes, marks, k, cs) ==> Reaches(nodes, m, stop)
    decreases |nodes| - k, 0, |cs|
  {
    if cs != [] {
      RootsReachUpAll(nodes, marks, k, cs[..|cs| - 1], stop);
      RootsReachUp(nodes, marks, cs[|cs| - 1]);
    }
  }

  /** The nodes of `visited` whose `staticInFor` the second pass writes. */
  ghost function InForTouched(nodes: seq<AstNode>, marks: map<nat, bool>, visited: set<nat>): set<nat>
  {
    set m | m in visited && m < |nodes| && (Marked(marks, m) || nodes[m].once)
  }

  /**
   * Each node of `visited` holds the marks the second pass gives it, when it
   * was entered with `isInFor` at the node whose parent is `stop`.
   */
  ghost predicate MarkedRoots(nodes: seq<AstNode>, marks: map<nat, bool>, roots: map<nat, bool>,
                              inFor: map<nat, bool>, visited: set<nat>, stop: Option<nat>, isInFor: bool)
    requires WellFormed(nodes)
  {
    forall m :: m in visited ==>
      && m < |nodes| && m in roots && roots[m] == Qualifies(nodes, marks, m)
      && ((Marked(marks, m) || nodes[m].once) ==>
            m in inFor && inFor[m] == (isInFor || ForBetween(nodes, m, stop)))
  }

  /** Marks kept for `a` and written for `b` by a later visit hold for both. */
  lemma MarkedRootsUnion(nodes: seq<AstNode>, marks: map<nat, bool>,
                         roots0: map<nat, bool>, inFor0: map<nat, bool>, roots: map<nat, bool>, inFor: map<nat, bool>,
                         a: set<nat>, b: set<nat>, stop: Option<nat>, isInFor: bool)
    requires WellFormed(nodes)
    requires MarkedRoots(nodes, marks, roots0, inFor0, a, stop, isInFor)
    requires MarkedRoots(nodes, marks, roots, inFor, b, stop, isInFor)
    requires Unchanged(roots, roots0, b) && Unchanged(inFor, inFor0, InForTouched(nodes, marks, b))
    ensures MarkedRoots(nodes, marks, roots, inFor, a + b, stop, isInFor)
  {
    forall m | m in a + b && m !in b
      ensures m < |nodes| && m in roots && roots[m] == Qualifies(nodes, marks, m)
      ensures (Marked(marks, m) || nodes[m].once) ==> m in inFor && inFor[m] == (isInFor || ForBetween(nodes, m, stop))
    {
      assert m in a;
      assert m !in InForTouched(nodes, marks, b);
    }
  }

  /** Changes confined to `a` and then to `b` are confined to both together. */
  lemma UnchangedCompose(after: map<nat, bool>, mid: map<nat, bool>, before: map<nat, bool>, a: set<nat>, b: set<nat>)
    requires Unchanged(mid, before, a) && Unchanged(after, mid, b)
    ensures Unchanged(after, before, a + b)
  {
  }

  /** The `staticInFor` writes of a union are those of each part. */
  lemma InForTouchedUnion(nodes: seq<AstNode>, marks: map<nat, bool>, a: set<nat>, b: set<nat>)
    ensures InForTouched(nodes, marks, a + b) == InForTouched(nodes, marks, a) + InForTouched(nodes, marks, b)
  {
  }

  /**
   * Marks written for nodes below node `k`'s children, entered with the
   * loops of `k` itself counted in, are the marks for entering at `k`.
   */
  lemma MarkedRootsLift(nodes: seq<AstNode>, marks: map<nat, bool>, roots: map<nat, bool>, inFor: map<nat, bool>,
                        k: nat, below: set<nat>, isInFor: bool)
    requires WellFormed(nodes) && k < |nodes|
    requires forall m :: m in below ==> m < |nodes| && Reaches(nodes, m, Some(k))
    requires MarkedRoots(nodes, marks, roots, inFor, below, Some(k), isInFor || nodes[k].hasFor)
    ensures MarkedRoots(nodes, marks, roots, inFor, below, nodes[k].parent, isInFor)
  {
    forall m | m in below
      ensures ForBetween(nodes, m, nodes[k].parent) == (ForBetween(nodes, m, Some(k)) || nodes[k].hasFor)
    {
      ForThrough(nodes, m, k);
    }
  }

  /** The nodes reached from one more of `cs`. */
  lemma RootsReachedAllSnoc(nodes: seq<AstNode>, marks: map<nat, bool>, k: nat, cs: seq<nat>, i: nat)
    requires WellFormed(nodes) && Above(nodes, k, cs) && i < |cs|
    ensures Above(nodes, k, cs[..i]) && Above(nodes, k, cs[..i + 1])
    ensures RootsReachedAll(nodes, marks, k, cs[..i + 1])
         == RootsReachedAll(nodes, marks, k, cs[..i]) + RootsReached(nodes, marks, cs[i])
  {
    assert cs[..i + 1][..i] == cs[..i];
  }

  /**
   * The marks of an element that does not qualify, then of what its
   * children reach and then of what its blocks reach, hold for all three.
   */
  lemma RootMarksJoin(nodes: seq<AstNode>, marks: map<nat, bool>, k: nat, isInFor: bool,
                      roots0: map<nat, bool>, inFor0: map<nat, bool>, roots1: map<nat, bool>, inFor1: map<nat, bool>,
                      roots2: map<nat, bool>, inFor2: map<nat, bool>, below: set<nat>, blocks: set<nat>)
    requires WellFormed(nodes) && k < |nodes| && !Qualifies(nodes, marks, k)
    requires k in roots0 && !roots0[k]
    requires (Marked(marks, k) || nodes[k].once) ==> k in inFor0 && inFor0[k] == isInFor
    requires forall m :: m in below ==> m < |nodes| && Reaches(nodes, m, Some(k))
    requires MarkedRoots(nodes, marks, roots1, inFor1, below, Some(k), isInFor || nodes[k].hasFor)
    requires Unchanged(roots1, roots0, below) && Unchanged(inFor1, inFor0, InForTouched(nodes, marks, below))
    requires MarkedRoots(nodes, marks, roots2, inFor2, blocks, nodes[k].parent, isInFor)
    requires Unchanged(roots2, roots1, blocks) && Unchanged(inFor2, inFor1, InForTouched(nodes, marks, blocks))
    ensures MarkedRoots(nodes, marks, roots2, inFor2, {k} + below + blocks, nodes[k].parent, isInFor)
  {
    assert MarkedRoots(nodes, marks, roots0, inFor0, {k}, nodes[k].parent, isInFor);
    MarkedRootsLift(nodes, marks, roots1, inFor1, k, below, isInFor);
    MarkedRootsUnion(nodes, marks, roots0, inFor0, roots1, inFor1, {k}, below, nodes[k].parent, isInFor);
    MarkedRootsUnion(nodes, marks, roots1, inFor1, roots2, inFor2, {k} + below, blocks, nodes[k].parent, isInFor);
  }

  /** The `staticInFor` writes at node `k`, below its children and below its blocks, together. */
  lemma InForFramesJoin(nodes: seq<AstNode>, marks: map<nat, bool>, k: nat, inForOld: map<nat, bool>,
                        inFor0: map<nat, bool>, inFor1: map<nat, bool>, inFor2: map<nat, bool>,
                        below: set<nat>, blocks: set<nat>)
    requires k < |nodes|
    requires Unchanged(inFor0, inForOld, InForTouched(nodes, marks, {k}))
    requires Unchanged(inFor1, inFor0, InForTouched(nodes, marks, below))
    requires Unchanged(inFor2, inFor1, InForTouched(nodes, marks, blocks))
    ensures Unchanged(inFor2, inForOld, InForTouched(nodes, marks, {k} + below + blocks))
  {
    InForTouchedUnion(nodes, marks, {k}, below);
    InForTouchedUnion(nodes, marks, {k} + below, blocks);
    UnchangedCompose(inFor1, inFor0, inForOld, InForTouched(nodes, marks, {k}), InForTouched(nodes, marks, below));
    UnchangedCompose(inFor2, inFor1, inForOld, InForTouched(nodes, marks, {k} + below),
                     InForTouched(nodes, marks, blocks));
  }

  // ---------------------------------------------------------------------
  // The tree and its marks

  /** The element tree and the marks the two passes write onto its nodes. */
  class Ast {
    const nodes: seq<AstNode>
    var staticMark: map<nat, bool>
    var staticRoot: map<nat, bool>
    var staticInFor: map<nat, bool>

    /** A tree straight from the parser: no node carries a mark yet. */
    constructor(nodes: seq<AstNode>)
      ensures this.nodes == nodes
      ensures staticMark == map[] && staticRoot == map[] && staticInFor == map[]
    {
      this.nodes := nodes;
      staticMark := map[];
      staticRoot := map[];
      staticInFor := map[];
    }

    /**
     * `markStatic(node)`: gives node `k` and every node below it that the
     * pass reaches the mark `StaticOf`, and touches no other mark.
     */
    method MarkStatic(cfg: Config, k: nat)
      requires WellFormed(nodes) && k < |nodes|
      modifies this
      ensures MarkedStatic(nodes, cfg, staticMark, Reached(nodes, cfg, k))
      ensures Unchanged(staticMark, old(staticMark), Reached(nodes, cfg, k))
      ensures staticRoot == old(staticRoot) && staticInFor == old(staticInFor)
      decreases |nodes| - k, 2
    {
      assert Linked(nodes, k);
      var node := nodes[k];
      staticMark := staticMark[k := IsStatic(nodes, cfg, k)];
      if node.nodeType == Element {
        if !cfg.isReservedTag(node.tag) && node.tag != "slot" && !node.inlineTemplate {
          return;
        }
        ghost var before := staticMark;
        MarkStaticEach(cfg, k, node.children);
        ghost var between := staticMark;
        MarkStaticEach(cfg, k, Blocks(node));
        ReachedTwice(cfg, k, before, between);
      }
    }

    /** The marks after visiting the children and the blocks cover both. */
    lemma ReachedTwice(cfg: Config, k: nat, before: map<nat, bool>, between: map<nat, bool>)
      requires WellFormed(nodes) && k < |nodes| && Linked(nodes, k)
      requires Descends(cfg, nodes[k])
      requires k in staticMark && staticMark[k] == StaticOf(nodes, cfg, k)
      requires MarkedStatic(nodes, cfg, between, ReachedAll(nodes, cfg, k, nodes[k].children))
      requires Unchanged(between, before, ReachedAll(nodes, cfg, k, nodes[k].children) + {k})
      requires MarkedStatic(nodes, cfg, staticMark, ReachedAll(nodes, cfg, k, Blocks(nodes[k])))
      requires Unchanged(staticMark, between, ReachedAll(nodes, cfg, k, Blocks(nodes[k])) + {k})
      ensures MarkedStatic(nodes, cfg, staticMark, Reached(nodes, cfg, k))
      ensures Unchanged(staticMark, before, Reached(nodes, cfg, k))
    {
    }

    /** One of the `for` loops of `markStatic`: visit each of `cs` and fold its mark into node `k`'s. */
    method MarkStaticEach(cfg: Config, k: nat, cs: seq<nat>)
      requires WellFormed(nodes) && Above(nodes, k, cs)
      requires k in staticMark
      modifies this
      ensures k in staticMark && staticMark[k] == (old(staticMark[k]) && AllStatic(nodes, cfg, k, cs))
      ensures MarkedStatic(nodes, cfg, staticMark, ReachedAll(nodes, cfg, k, cs))
      ensures Unchanged(staticMark, old(staticMark), ReachedAll(nodes, cfg, k, cs) + {k})
      ensures staticRoot == old(staticRoot) && staticInFor == old(staticInFor)
      decreases |nodes| - k, 1
    {
      var i := 0;
      while i < |cs|
        invariant i <= |cs|
        invariant k in staticMark && staticMark[k] == (old(staticMark[k]) && AllStatic(nodes, cfg, k, cs[..i]))
        invariant MarkedStatic(nodes, cfg, staticMark, ReachedAll(nodes, cfg, k, cs[..i]))
        invariant Unchanged(staticMark, old(staticMark), ReachedAll(nodes, cfg, k, cs[..i]) + {k})
        invariant staticRoot == old(staticRoot) && staticInFor == old(staticInFor)
      {
        MarkChild(cfg, k, cs, i, old(staticMark), old(staticMark[k]));
        i := i + 1;
      }
      assert cs[..i] == cs;
    }

    /** One turn of such a loop: visit `cs[i]`, and clear node `k`'s mark when the child is not static. */
    method MarkChild(cfg: Config, k: nat, cs: seq<nat>, i: nat, ghost start: map<nat, bool>, ghost startK: bool)
      requires WellFormed(nodes) && Above(nodes, k, cs) && i < |cs|
      requires k in staticMark && staticMark[k] == (startK && AllStatic(nodes, cfg, k, cs[..i]))
      requires MarkedStatic(nodes, cfg, staticMark, ReachedAll(nodes, cfg, k, cs[..i]))
      requires Unchanged(staticMark, start, ReachedAll(nodes, cfg, k, cs[..i]) + {k})
      modifies this
      ensures k in staticMark && staticMark[k] == (startK && AllStatic(nodes, cfg, k, cs[..i + 1]))
      ensures MarkedStatic(nodes, cfg, staticMark, ReachedAll(nodes, cfg, k, cs[..i + 1]))
      ensures Unchanged(staticMark, start, ReachedAll(nodes, cfg, k, cs[..i + 1]) + {k})
      ensures staticRoot == old(staticRoot) && staticInFor == old(staticInFor)
      decreases |nodes| - k, 0
    {
      var child := cs[i];
      ghost var before := staticMark;
      MarkStatic(cfg, child);
      ghost var visited := staticMark;
      ChildVisited(nodes, cfg, k, cs, i, before, visited);
      if !staticMark[child] {
        staticMark := staticMark[k := false];
      }
      ChildFolded(nodes, cfg, k, child, start, before, visited, staticMark,
                  ReachedAll(nodes, cfg, k, cs[..i]), Reached(nodes, cfg, child));
    }

    /**
     * `markStaticRoots(node, isInFor)`: gives every node the pass reaches
     * from node `k` its `staticRoot` mark and, when it is static or `v-once`,
     * its `staticInFor` mark; `isInFor` stands for the loops above `k`.
     */
    method MarkStaticRoots(k: nat, isInFor: bool)
      requires WellFormed(nodes) && k < |nodes|
      modifies this
      ensures MarkedRoots(nodes, staticMark, staticRoot, staticInFor,
                          RootsReached(nodes, staticMark, k), nodes[k].parent, isInFor)
      ensures Unchanged(staticRoot, old(staticRoot), RootsReached(nodes, staticMark, k))
      ensures Unchanged(staticInFor, old(staticInFor), InForTouched(nodes, staticMark, RootsReached(nodes, staticMark, k)))
      ensures staticMark == old(staticMark)
      decreases |nodes| - k, 1
    {
      assert Linked(nodes, k);
      var node := nodes[k];
      if node.nodeType == Element {
        var isStatic := k in staticMark && staticMark[k];
        if isStatic || node.once {
          staticInFor := staticInFor[k := isInFor];
        }
        if isStatic && |node.children| > 0 && !(|node.children| == 1 && nodes[node.children[0]].nodeType == Text) {
          staticRoot := staticRoot[k := true];
          return;
        } else {
          staticRoot := staticRoot[k := false];
        }
        ghost var roots0, inFor0 := staticRoot, staticInFor;
        MarkStaticRootsEach(k, node.children, isInFor || node.hasFor, Some(k));
        ghost var roots1, inFor1 := staticRoot, staticInFor;
        MarkStaticRootsEach(k, Blocks(node), isInFor, node.parent);
        RootsTwice(k, isInFor, old(staticRoot), old(staticInFor), roots0, inFor0, roots1, inFor1);
      }
    }

    /** The marks after visiting the children and the blocks cover both. */
    lemma RootsTwice(k: nat, isInFor: bool, rootsOld: map<nat, bool>, inForOld: map<nat, bool>,
                     roots0: map<nat, bool>, inFor0: map<nat, bool>,
                     roots1: map<nat, bool>, inFor1: map<nat, bool>)
      requires WellFormed(nodes) && k < |nodes| && Linked(nodes, k)
      requires nodes[k].nodeType == Element && !Qualifies(nodes, staticMark, k)
      requires roots0 == rootsOld[k := false]
      requires inFor0 == if Marked(staticMark, k) || nodes[k].once then inForOld[k := isInFor] else inForOld
      requires MarkedRoots(nodes, staticMark, roots1, inFor1,
                           RootsReachedAll(nodes, staticMark, k, nodes[k].children), Some(k), isInFor || nodes[k].hasFor)
      requires Unchanged(roots1, roots0, RootsReachedAll(nodes, staticMark, k, nodes[k].children))
      requires Unchanged(inFor1, inFor0, InForTouched(nodes, staticMark, RootsReachedAll(nodes, staticMark, k, nodes[k].children)))
      requires MarkedRoots(nodes, staticMark, staticRoot, staticInFor,
                           RootsReachedAll(nodes, staticMark, k, Blocks(nodes[k])), nodes[k].parent, isInFor)
      requires Unchanged(staticRoot, roots1, RootsReachedAll(nodes, staticMark, k, Blocks(nodes[k])))
      requires Unchanged(staticInFor, inFor1, InForTouched(nodes, staticMark, RootsReachedAll(nodes, staticMark, k, Blocks(nodes[k]))))
      ensures MarkedRoots(nodes, staticMark, staticRoot, staticInFor,
                          RootsReached(nodes, staticMark, k), nodes[k].parent, isInFor)
      ensures Unchanged(staticRoot, rootsOld, RootsReached(nodes, staticMark, k))
      ensures Unchanged(staticInFor, inForOld, InForTouched(nodes, staticMark, RootsReached(nodes, staticMark, k)))
    {
      var below := RootsReachedAll(nodes, staticMark, k, nodes[k].children);
      var blocks := RootsReachedAll(nodes, staticMark, k, Blocks(nodes[k]));
      assert RootsReached(nodes, staticMark, k) == {k} + below + blocks;
      RootsReachUpAll(nodes, staticMark, k, nodes[k].children, Some(k));
      RootMarksJoin(nodes, staticMark, k, isInFor, roots0, inFor0, roots1, inFor1, staticRoot, staticInFor, below, blocks);
      UnchangedCompose(roots1, roots0, rootsOld, {k}, below);
      UnchangedCompose(staticRoot, roots1, rootsOld, {k} + below, blocks);
      InForFramesJoin(nodes, staticMark, k, inForOld, inFor0, inFor1, staticInFor, below, blocks);
    }

    /**
     * One of the `for` loops of `markStaticRoots`: visit each of `cs`, all of
     * them children of `stop`'s node, with the same `isInFor`.
     */
    method MarkStaticRootsEach(k: nat, cs: seq<nat>, isInFor: bool, ghost stop: Option<nat>)
      requires WellFormed(nodes) && Above(nodes, k, cs)
      requires forall i :: 0 <= i < |cs| ==> nodes[cs[i]].parent == stop
      modifies this
      ensures MarkedRoots(nodes, staticMark, staticRoot, staticInFor,
                          RootsReachedAll(nodes, staticMark, k, cs), stop, isInFor)
      ensures Unchanged(staticRoot, old(staticRoot), RootsReachedAll(nodes, staticMark, k, cs))
      ensures Unchanged(staticInFor, old(staticInFor), InForTouched(nodes, staticMark, RootsReachedAll(nodes, staticMark, k, cs)))
      ensures staticMark == old(staticMark)
      decreases |nodes| - k, 0
    {
      var i := 0;
      while i < |cs|
        invariant i <= |cs| && staticMark == old(staticMark)
        invariant MarkedRoots(nodes, staticMark, staticRoot, staticInFor,
                              RootsReachedAll(nodes, staticMark, k, cs[..i]), stop, isInFor)
        invariant Unchanged(staticRoot, old(staticRoot), RootsReachedAll(nodes, staticMark, k, cs[..i]))
        invariant Unchanged(staticInFor, old(staticInFor), InForTouched(nodes, staticMark, RootsReachedAll(nodes, staticMark, k, cs[..i])))
      {
        ghost var roots0, inFor0 := staticRoot, staticInFor;
        MarkStaticRoots(cs[i], isInFor);
        RootChildVisited(k, cs, i, isInFor, stop, roots0, inFor0);
        i := i + 1;
      }
      assert cs[..i] == cs;
    }

    /** Visiting `cs[i]` extends what was visited of `cs[..i]` by what it reaches. */
    lemma RootChildVisited(k: nat, cs: seq<nat>, i: nat, isInFor: bool, stop: Option<nat>,
                           roots0: map<nat, bool>, inFor0: map<nat, bool>)
      requires WellFormed(nodes) && Above(nodes, k, cs) && i < |cs| && nodes[cs[i]].parent == stop
      requires MarkedRoots(nodes, staticMark, roots0, inFor0, RootsReachedAll(nodes, staticMark, k, cs[..i]), stop, isInFor)
      requires MarkedRoots(nodes, staticMark, staticRoot, staticInFor, RootsReached(nodes, staticMark, cs[i]), stop, isInFor)
      requires Unchanged(staticRoot, roots0, RootsReached(nodes, staticMark, cs[i]))
      requires Unchanged(staticInFor, inFor0, InForTouched(nodes, staticMark, RootsReached(nodes, staticMark, cs[i])))
      ensures RootsReachedAll(nodes, staticMark, k, cs[..i + 1])
           == RootsReachedAll(nodes, staticMark, k, cs[..i]) + RootsReached(nodes, staticMark, cs[i])
      ensures MarkedRoots(nodes, staticMark, staticRoot, staticInFor,
                          RootsReachedAll(nodes, staticMark, k, cs[..i + 1]), stop, isInFor)
    {
      RootsReachedAllSnoc(nodes, staticMark, k, cs, i);
      MarkedRootsUnion(nodes, staticMark, roots0, inFor0, staticRoot, staticInFor,
                       RootsReachedAll(nodes, staticMark, k, cs[..i]), RootsReached(nodes, staticMark, cs[i]), stop, isInFor);
    }
  }

  /**
   * `optimize(root, options)`: with no root nothing happens; otherwise the
   * first pass marks the tree from the root and the second pass, which
   * reads those marks, starts at the root outside every `v-for`.
   */
  method Optimize(ast: Ast, root: Option<nat>, options: CompilerOptions)
    requires WellFormed(ast.nodes) && (root.Some? ==> root.value < |ast.nodes|)
    modifies ast
    ensures root.None? ==> unchanged(ast)
    ensures root.Some? ==>
      var cfg, r, nodes := ConfigOf(options), root.value, ast.nodes;
      && MarkedStatic(nodes, cfg, ast.staticMark, Reached(nodes, cfg, r))
      && Unchanged(ast.staticMark, old(ast.staticMark), Reached(nodes, cfg, r))
      && MarkedRoots(nodes, ast.staticMark, ast.staticRoot, ast.staticInFor,
                     RootsReached(nodes, ast.staticMark, r), nodes[r].parent, false)
      && Unchanged(ast.staticRoot, old(ast.staticRoot), RootsReached(nodes, ast.staticMark, r))
      && Unchanged(ast.staticInFor, old(ast.staticInFor),
                   InForTouched(nodes, ast.staticMark, RootsReached(nodes, ast.staticMark, r)))
  {
    if root.None? {
      return;
    }
    var cfg := ConfigOf(options);
    ast.MarkStatic(cfg, root.value);
    ast.MarkStaticRoots(root.value, false);
  }

  /**
   * On a tree fresh from the parser, every node the optimizer marks as a
   * static root is static by the first pass's rule, and so is everything
   * the first pass looked at below it: the hoisted subtree never changes.
   */
  lemma {:induction false} HoistedSubtreeStatic(nodes: seq<AstNode>, cfg: Config, r: nat, marks: map<nat, bool>,
                                                roots: map<nat, bool>, inFor: map<nat, bool>, isInFor: bool)
    requires WellFormed(nodes) && r < |nodes|
    requires MarkedStatic(nodes, cfg, marks, Reached(nodes, cfg, r))
    requires Unchanged(marks, map[], Reached(nodes, cfg, r))
    requires MarkedRoots(nodes, marks, roots, inFor, RootsReached(nodes, marks, r), nodes[r].parent, isInFor)
    ensures forall m :: m in RootsReached(nodes, marks, r) && roots[m] ==>
              StaticOf(nodes, cfg, m) && forall n :: n in Reached(nodes, cfg, m) ==> StaticOf(nodes, cfg, n)
  {
    forall m | m in RootsReached(nodes, marks, r) && roots[m]
      ensures StaticOf(nodes, cfg, m) && forall n :: n in Reached(nodes, cfg, m) ==> StaticOf(nodes, cfg, n)
    {
      assert Marked(marks, m);
      StaticSubtree(nodes, cfg, m);
    }
  }
}
