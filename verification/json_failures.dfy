/** Operations on the whole document, and what is left of a document when an operation fails. */
module JsonFailures {
  import opened JsonTree
  import opened JsonPointer
  import opened JsonPatch
  import opened JsonRfc6902
  import opened Options

  lemma {:induction false} NothingToSplit(doc: Json, caseSensitive: bool)
    ensures Split(doc, "", caseSensitive).None?
  {
  }

  /** `add` and `replace` of the whole document are done as RFC 6902 says, and without a value they fail as it says. */
  lemma {:induction false} WholeReplaced(doc: Json, p: Patch, caseSensitive: bool)
    requires p.path == "" && (p.operation.Add? || p.operation.Replace?)
    ensures var r := Apply(doc, p, caseSensitive);
            if Performed(doc, p).Some? then r == (0, Performed(doc, p).value) else r.0 != 0 && r.1 == doc
  {
  }

  /**
   * But a value can neither be copied nor moved to the place of the whole document, which by the RFC it can, and to
   * remove the whole document, where the RFC leaves nothing, succeeds with an invalid item.
   */
  lemma {:induction false} WholeNeverMoved(doc: Json, p: Patch, caseSensitive: bool)
    requires p.path == ""
    ensures p.operation.Copy? || p.operation.Move? ==> Apply(doc, p, caseSensitive).0 != 0
    ensures p.operation.Remove? ==> Performed(doc, p).None? && Apply(doc, p, caseSensitive) == (0, Invalid)
    ensures p.operation.Copy? && p.from.Some? && p.from.value.String? ==>
              Performed(doc, p) == Find(doc, p.from.value.text)
  {
    hide Locate, Find;
    forall d: Json
      ensures Split(d, "", caseSensitive).None?
    {
      NothingToSplit(d, caseSensitive);
    }
    if p.operation.Copy? && p.from.Some? && p.from.value.String? && Find(doc, p.from.value.text).Some? {
      assert Perform(doc, "", Add, Find(doc, p.from.value.text)) == Find(doc, p.from.value.text);
    }
  }

  lemma {:induction false} PutBack(doc: Json, pos: Position)
    requires IsNode(doc, pos)
    ensures Put(doc, pos, NodeAt(doc, pos)) == doc
    decreases |pos|
  {
    if pos != [] { PutBack(Children(doc)[pos[0]], pos[1..]); }
  }

  lemma {:induction false} FailedAddKeeps(doc: Json, path: string, value: Json, caseSensitive: bool)
    requires AddPath(doc, path, value, caseSensitive).0 != 0
    ensures AddPath(doc, path, value, caseSensitive).1 == doc
  {
    hide Split, DecodeIndex, IndexFor, Put;
    var split := Split(doc, path, caseSensitive);
    if split.Some? { PutBack(doc, split.value.0); }
  }

  /** The place that an operation takes a value out of before it puts one in. */
  function Emptied(p: Patch): Option<string> {
    if p.operation.Replace? && p.path != "" then Some(p.path)
    else if p.operation.Move? && p.from.Some? && p.from.value.String? then Some(p.from.value.text)
    else None
  }

  /**
   * An operation that fails leaves the document as it was, unless it is a `replace` or `move` that has already taken
   * out a value: then it leaves the document without that value.
   */
  lemma {:induction false} FailureLeaves(doc: Json, p: Patch, caseSensitive: bool)
    requires Apply(doc, p, caseSensitive).0 != 0 && !p.operation.Test?
    ensures var from := Emptied(p);
            var detached := if from.None? then None else DetachPath(doc, from.value, caseSensitive);
            Apply(doc, p, caseSensitive).1 == if detached.None? then doc else detached.value.1
  {
    hide DetachPath, AddPath, Locate;
    match p.operation
    case Replace =>
      var d := DetachPath(doc, p.path, caseSensitive);
      if p.path != "" && d.Some? && p.value.Some? { FailedAddKeeps(d.value.1, p.path, p.value.value, caseSensitive); }
    case Add =>
      if p.value.Some? && p.path != "" { FailedAddKeeps(doc, p.path, p.value.value, caseSensitive); }
    case Move =>
      if p.from.Some? && p.from.value.String? {
        var d := DetachPath(doc, p.from.value.text, caseSensitive);
        if d.Some? { FailedAddKeeps(d.value.1, p.path, d.value.0, caseSensitive); }
      }
    case Copy =>
      if p.from.Some? && p.from.value.String? {
        var found := Locate(doc, p.from.value.text, caseSensitive);
        if found.Some? { FailedAddKeeps(doc, p.path, NodeAt(doc, found.value), caseSensitive); }
      }
    case _ =>
  }
}
