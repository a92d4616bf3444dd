/** The staging directory as a tree, and the one-level layout normalisation applied after a pull. */
module Layout {
  import opened Wrappers
  import opened Errors

  /** A directory entry: a file with its content, or a directory with its named children. */
  datatype Node = File(content: string) | Dir(children: map<string, Node>)

  /** The entries of one directory, keyed by name. */
  type Tree = map<string, Node>

  /** The conventional top-level directories of a pipeline library. */
  const WellKnown: set<string> := {"src", "vars", "resources"}

  /** The node reached by walking the names of `path` down from `t`, if every step exists. */
  function At(t: Tree, path: seq<string>): Option<Node>
    decreases |path|
  {
    if |path| == 0 || path[0] !in t then None
    else if |path| == 1 then Some(t[path[0]])
    else match t[path[0]]
      case File(_) => None
      case Dir(children) => At(children, path[1..])
  }

  /** The name of the only entry of a one-entry directory. */
  function Sole(t: Tree): (name: string)
    requires |t| == 1
    ensures t.Keys == {name}
  {
    var name :| name in t;
    assert t.Keys == {name} by {
      assert |t.Keys - {name}| == 0;
    }
    name
  }

  /** The staging directory holds exactly one entry, a directory, whose name is not well known:
      it is a wrapper whose children belong at the root. */
  predicate IsWrapped(t: Tree) {
    |t| == 1 && t[Sole(t)].Dir? && Sole(t) !in WellKnown
  }

  /** Layout normalisation: a wrapper directory's children are moved up to the root and the
      wrapper removed; every other layout is left as it is. Right after the move the root is
      listed again and its first entry read, so an empty wrapper ends in `EmptyListing`. */
  function Normalise(t: Tree): (r: Result<Tree, Error>)
    ensures |t| != 1 ==> r == Ok(t)
    ensures |t| == 1 && t[Sole(t)].File? ==> r == Ok(t)
    ensures |t| == 1 && Sole(t) in WellKnown ==> r == Ok(t)
    ensures IsWrapped(t) ==> var w := Sole(t);
      && (r.Err? <==> |t[w].children| == 0)
      && (r.Err? ==> r.error == EmptyListing)
      && (r.Ok? ==> forall p :: |p| > 0 ==> At(r.value, p) == At(t, [w] + p))
  {
    if |t| == 1 && t[Sole(t)].Dir? && Sole(t) !in WellKnown then
      var promoted := t[Sole(t)].children;
      if |promoted| == 0 then Err(EmptyListing) else Ok(promoted)
    else
      Ok(t)
  }
}
