/**
 * One list function on the elements it is really given: every schedule of its goroutines shows the
 * reference's completion, because no panic escapes from an element of a validated selection.
 */
module GraphqlSchedule {
  import opened Core
  import opened GraphqlSpec
  import opened GraphqlTheory
  import opened GraphqlExec
  import L = ListSchedule

  /** What the goroutine of one element does, as MarshalValue's contract says. */
  function Element(w: World, item: Marshal, v: GoValue, sels: seq<Field>, path: Path): L.Elem {
    if ValueEscapes(item, v, sels) then L.Blows
    else L.Yields(TreeOf(CompleteValue(w, GQLGEN, TypeFor(item), v, sels, path)))
  }

  function Elements(w: World, item: Marshal, items: seq<GoValue>, sels: seq<Field>, path: Path): seq<L.Elem> {
    seq(|items|, i requires 0 <= i < |items| => Element(w, item, items[i], sels, path + [Index(i)]))
  }

  /** The reply of the list function, as the tree it is rendered to. */
  predicate Shows(reply: L.Reply, tree: Tree) {
    match reply
    case NullReply => tree == Null
    case ArrayReply(cells) =>
      tree.Arr? && |cells| == |tree.items| && forall i :: 0 <= i < |cells| ==> cells[i] == L.Put(tree.items[i])
  }

  /** Marshalling an element panics only over an unknown field of its own selection, so a validated one never does. */
  lemma ElementsPanicIff(w: World, item: Marshal, items: seq<GoValue>, sels: seq<Field>, path: Path)
    requires ByValue(item)
    ensures L.NoPanic(Elements(w, item, items, sels, path))
      <==> items == [] || item.NLeaf? || !NamesUnknown(item.kind, sels)
    ensures ValidatedUnder(Base(TypeFor(item)), sels) ==> L.NoPanic(Elements(w, item, items, sels, path))
  {
    hide CompleteValue, NamesUnknown;
    var es := Elements(w, item, items, sels, path);
    forall i | 0 <= i < |items|
      ensures es[i].Blows? <==> item.NStruct? && NamesUnknown(item.kind, sels)
      ensures ValidatedUnder(Base(TypeFor(item)), sels) ==> es[i].Yields?
    {
      if ValidatedUnder(Base(TypeFor(item)), sels) {
        ValidatedNeverEscapes(item, items[i], sels);
      }
    }
    if items != [] {
      assert es[0].Blows? <==> item.NStruct? && NamesUnknown(item.kind, sels);
    }
  }

  /** In every schedule of its goroutines the list function returns what the reference completes the list to. */
  lemma ListsUnderEverySchedule(w: World, item: Marshal, items: seq<GoValue>, sels: seq<Field>, path: Path,
                                acts: seq<L.Actor>, t: L.State)
    requires ByValue(item) && ValidatedUnder(Base(TypeFor(item)), sels)
    requires var es := Elements(w, item, items, sels, path); L.Leads(es, L.Init(es), acts, t) && t.main.Returned?
    ensures Shows(t.main.reply, TreeOf(CompleteInner(w, GQLGEN, ListOf(TypeFor(item)), Slice(items), sels, path)))
  {
    var es := Elements(w, item, items, sels, path);
    ElementsPanicIff(w, item, items, sels, path);
    L.EveryScheduleAgrees(es, acts, t);
    var rs := ItemResults(w, GQLGEN, TypeFor(item), items, sels, path, |items|);
    NullMeansRaised(w, item, sels, items, path, rs);
    hide CompleteValue, ItemResults, AllErrs, ValueEscapes, ValidatedUnder, TypeFor, Base, ByValue, L.Leads;
    assert forall i :: 0 <= i < |items| ==> es[i] == L.Yields(TreeOf(rs[i]));
    assert AnyRaised(rs) <==> exists i :: 0 <= i < |es| && es[i].tree.Null?;
  }
}
