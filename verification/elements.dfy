/**
 Catalog items of the gashapon machine and the one derived view of a catalog
 the draw engine relies on: the items whose id has not been drawn yet, in
 catalog order.
 */
module Options {

  /** A value that may be absent; `None` plays the part of JavaScript's `null`. */
  datatype Option<+T> = None | Some(value: T)
}

module Elements {

  import opened Sequences

  /** One drawable item. Items are immutable and only ever referenced. */
  datatype Element = Element(id: int, title: string, description: string, url: string, image: string)

  /** The ids occurring in a sequence of items. */
  function Ids(xs: seq<Element>): set<int>
  {
    set e | e in xs :: e.id
  }

  /** No two positions of `xs` carry the same id. */
  predicate DistinctIds(xs: seq<Element>)
  {
    forall a, b :: 0 <= a < b < |xs| ==> xs[a].id != xs[b].id
  }

  /** The items of `catalog` whose id is not in `drawn`, in catalog order. */
  function Undrawn(catalog: seq<Element>, drawn: set<int>): (r: seq<Element>)
    ensures |r| <= |catalog|
    ensures forall e :: e in r ==> e in catalog && e.id !in drawn
    ensures forall e :: e in catalog && e.id !in drawn ==> e in r
    decreases |catalog|
  {
    if catalog == [] then []
    else if catalog[0].id in drawn then Undrawn(catalog[1..], drawn)
    else [catalog[0]] + Undrawn(catalog[1..], drawn)
  }

  /** A suffix of a catalog with distinct ids has distinct ids. */
  lemma DistinctIdsTail(xs: seq<Element>)
    requires xs != [] && DistinctIds(xs)
    ensures DistinctIds(xs[1..])
    ensures xs[0].id !in Ids(xs[1..])
  {
  }

  /** Nothing drawn: every catalog item is still available, in order. */
  lemma {:induction false} UndrawnNothing(catalog: seq<Element>)
    ensures Undrawn(catalog, {}) == catalog
    decreases |catalog|
  {
    if catalog != [] {
      UndrawnNothing(catalog[1..]);
      assert catalog == [catalog[0]] + catalog[1..];
    }
  }

  /** Marking an id as drawn that no catalog item carries changes nothing. */
  lemma {:induction false} UndrawnForeignId(catalog: seq<Element>, drawn: set<int>, id: int)
    requires id !in Ids(catalog)
    ensures Undrawn(catalog, drawn + {id}) == Undrawn(catalog, drawn)
    decreases |catalog|
  {
    if catalog != [] {
      assert catalog[0] in catalog;
      assert Ids(catalog[1..]) <= Ids(catalog) by {
        forall x | x in Ids(catalog[1..]) ensures x in Ids(catalog) {
          var e :| e in catalog[1..] && e.id == x;
          assert e in catalog;
        }
      }
      UndrawnForeignId(catalog[1..], drawn, id);
    }
  }

  /** An item of a sequence contributes its id. */
  lemma IdOfMember(xs: seq<Element>, e: Element)
    requires e in xs
    ensures e.id in Ids(xs)
  {
  }

  /**
   Drawing the item at position `i` of the available items is the same as
   marking its id drawn: the remaining available items are the old ones with
   position `i` cut out, and the order of the others is kept.
   */
  lemma {:induction false} UndrawnDrawOne(catalog: seq<Element>, drawn: set<int>, i: nat)
    requires DistinctIds(catalog)
    requires i < |Undrawn(catalog, drawn)|
    ensures var avail := Undrawn(catalog, drawn);
            Undrawn(catalog, drawn + {avail[i].id}) == avail[..i] + avail[i + 1..]
    decreases |catalog|
  {
    DistinctIdsTail(catalog);
    if catalog[0].id in drawn {
      UndrawnDrawOne(catalog[1..], drawn, i);
    } else if i == 0 {
      UndrawnForeignId(catalog[1..], drawn, catalog[0].id);
    } else {
      UndrawnDrawLater(catalog, drawn, i);
    }
  }

  /** The step of `UndrawnDrawOne` where the head is available and a later item is drawn. */
  lemma {:induction false} UndrawnDrawLater(catalog: seq<Element>, drawn: set<int>, i: nat)
    requires DistinctIds(catalog)
    requires catalog != [] && catalog[0].id !in drawn
    requires 0 < i < |Undrawn(catalog, drawn)|
    ensures var avail := Undrawn(catalog, drawn);
            Undrawn(catalog, drawn + {avail[i].id}) == avail[..i] + avail[i + 1..]
    decreases |catalog|, 0
  {
    var h, t := catalog[0], catalog[1..];
    var rest := Undrawn(t, drawn);
    var avail := Undrawn(catalog, drawn);
    assert avail == [h] + rest;
    var x := rest[i - 1];
    assert avail[i] == x;
    DistinctIdsTail(catalog);
    IdOfMember(t, x);
    assert h.id !in drawn + {x.id};
    var d' := drawn + {x.id};
    assert Undrawn(catalog, d') == [h] + Undrawn(t, d');
    UndrawnDrawOne(t, drawn, i - 1);
    SpliceUnderCons(h, rest, i - 1);
  }
}
