/**
 * The part of a virtual node that the keep-alive cache reads and writes,
 * and the two read-only helpers that pick a component out of a slot:
 * `isAsyncPlaceholder` and `getFirstComponentChild`.
 */
module VNodeHelpers {
  import opened Wrappers

  /** The component constructor's `cid`, its registered `options.name`, and the tag it was used under. */
  datatype ComponentOptions = ComponentOptions(ctorName: Option<string>, cid: nat, tag: Option<string>)

  /**
   * A virtual node. `asyncFactory` and `componentInstance` stand for the
   * objects the runtime attaches, identified by a number; `keepAlive` is
   * the `data.keepAlive` flag.
   */
  datatype VNode = VNode(
    tag: Option<string>,
    key: Option<string>,
    componentOptions: Option<ComponentOptions>,
    isComment: bool,
    asyncFactory: Option<nat>,
    componentInstance: Option<nat>,
    keepAlive: bool)

  /**
   * `node.isComment && node.asyncFactory`: a comment node standing in for an
   * async component that has not resolved yet. The truthy result is the
   * factory itself; `None` is every falsy result.
   */
  function IsAsyncPlaceholder(node: VNode): (r: Option<nat>)
    ensures r.Some? ==> node.isComment
    ensures r.Some? ==> node.asyncFactory.Some? && r == node.asyncFactory
    ensures node.isComment && node.asyncFactory.Some? ==> r.Some?
  {
    if node.isComment then node.asyncFactory else None
  }

  /** A slot entry `getFirstComponentChild` accepts: defined, and a component or an async placeholder. */
  predicate IsComponentChild(c: Option<VNode>) {
    c.Some? && (c.value.componentOptions.Some? || IsAsyncPlaceholder(c.value).Some?)
  }

  /**
   * The first entry of `cs` that is a component or an async placeholder,
   * scanning from index 0; `None` when no entry qualifies.
   */
  function FirstIn(cs: seq<Option<VNode>>): (r: Option<VNode>)
    ensures r.None? <==> forall i :: 0 <= i < |cs| ==> !IsComponentChild(cs[i])
    ensures r.Some? ==> exists i :: (
      && 0 <= i < |cs| && cs[i] == r && IsComponentChild(cs[i])
      && forall j :: 0 <= j < i ==> !IsComponentChild(cs[j]))
  {
    if cs == [] then None
    else if IsComponentChild(cs[0]) then cs[0]
    else
      var r := FirstIn(cs[1..]);
      assert forall i :: 1 <= i < |cs| ==> cs[i] == cs[1..][i - 1];
      r
  }

  /** `getFirstComponentChild` as a value: `None` for a slot that is not an array. */
  function FirstComponentChild(children: Option<seq<Option<VNode>>>): Option<VNode> {
    if children.Some? then FirstIn(children.value) else None
  }

  /**
   * The first entry of `children` that is a component or an async
   * placeholder; `None` when `children` is not an array (modelled as `None`)
   * or when no entry qualifies. Undefined and null entries are skipped.
   */
  method GetFirstComponentChild(children: Option<seq<Option<VNode>>>) returns (r: Option<VNode>)
    ensures r == FirstComponentChild(children)
    ensures children.None? ==> r.None?
    ensures r.None? ==> children.None? || forall i :: 0 <= i < |children.value| ==> !IsComponentChild(children.value[i])
    ensures r.Some? ==> children.Some? && exists i :: (
      && 0 <= i < |children.value| && children.value[i] == Some(r.value)
      && IsComponentChild(children.value[i])
      && forall j :: 0 <= j < i ==> !IsComponentChild(children.value[j]))
  {
    if children.Some? {
      var cs := children.value;
      var i := 0;
      while i < |cs|
        invariant 0 <= i <= |cs|
        invariant forall j :: 0 <= j < i ==> !IsComponentChild(cs[j])
        invariant FirstIn(cs[i..]) == FirstIn(cs)
      {
        var c := cs[i];
        if c.Some? && (c.value.componentOptions.Some? || IsAsyncPlaceholder(c.value).Some?) {
          return c;
        }
        assert cs[i..][1..] == cs[i + 1..];
        i := i + 1;
      }
    }
    return None;
  }
}
