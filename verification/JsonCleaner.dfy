/** The recursive removal of empty values from a decoded JSON tree (cmd/parse/parse.go). */
module JsonCleaner {
  import opened Text

  /** A tree as encoding/json decodes it into generic values. */
  datatype Json =
    | Null
    | Bool(b: bool)
    | Number(n: real)
    | String(s: string)
    | Array(items: seq<Json>)
    | Object(fields: map<string, Json>)

  /** Null, false, 0 and "": leaves that count as empty. */
  predicate EmptyLeaf(j: Json) { j.Null? || j == Bool(false) || j == Number(0.0) || j == String("") }

  /** What remains of a tree; None where nothing does. */
  function Clean(j: Json): (r: Option<Json>)
    decreases j, 1
  {
    match j
    case Array(items) =>
      var kept := CleanItems(items);
      if kept == [] then None else Some(Array(kept))
    case Object(fields) =>
      var kept := CleanFields(j);
      if kept == map[] then None else Some(Object(kept))
    case _ => if EmptyLeaf(j) then None else Some(j)
  }

  function CleanFields(j: Json): map<string, Json>
    requires j.Object?
    decreases j, 0
  {
    map k | k in j.fields && Clean(j.fields[k]).Some? :: Clean(j.fields[k]).value
  }

  function CleanItems(items: seq<Json>): seq<Json>
    decreases items, 0
  {
    if items == [] then []
    else
      var n := |items| - 1;
      match Clean(items[n])
      case None => CleanItems(items[..n])
      case Some(j) => CleanItems(items[..n]) + [j]
  }

  /** removeEmptyValues: fresh collections are filled in a loop over the old ones, map keys in any order. */
  method RemoveEmptyValues(j: Json) returns (r: Option<Json>)
    ensures r == Clean(j)
    decreases j
  {
    match j
    case Array(items) =>
      var kept: seq<Json> := [];
      for i := 0 to |items|
        invariant kept == CleanItems(items[..i])
      {
        assert items[..i + 1][..i] == items[..i];
        var cleaned := RemoveEmptyValues(items[i]);
        if cleaned.Some? {
          kept := kept + [cleaned.value];
        }
      }
      assert items[..|items|] == items;
      return if kept == [] then None else Some(Array(kept));
    case Object(fields) =>
      var kept: map<string, Json>, todo := map[], fields.Keys;
      while todo != {}
        invariant todo <= fields.Keys
        invariant kept == map k | k in fields && k !in todo && Clean(fields[k]).Some? :: Clean(fields[k]).value
        decreases todo
      {
        var key :| key in todo;
        var cleaned := RemoveEmptyValues(fields[key]);
        if cleaned.Some? {
          kept := kept[key := cleaned.value];
        }
        todo := todo - {key};
      }
      assert kept == CleanFields(j);
      return if kept == map[] then None else Some(Object(kept));
    case Null => return None;
    case Bool(b) => return if b then Some(j) else None;
    case Number(n) => return if n == 0.0 then None else Some(j);
    case String(s) => return if s == "" then None else Some(j);
  }

  // ---------------------------------------------------------------- what is removed

  /** A tree without an empty value at any depth. */
  predicate NoEmpty(j: Json)
  {
    match j
    case Array(items) => items != [] && forall i | 0 <= i < |items| :: NoEmpty(items[i])
    case Object(fields) => fields != map[] && forall k | k in fields :: NoEmpty(fields[k])
    case _ => !EmptyLeaf(j)
  }

  /** Nothing empty remains. */
  lemma {:induction false} CleanIsClean(j: Json)
    ensures Clean(j).Some? ==> NoEmpty(Clean(j).value)
    decreases j, 1
  {
    match j
    case Array(items) => CleanItemsAreClean(items);
    case Object(fields) =>
      forall k | k in fields
        ensures Clean(fields[k]).Some? ==> NoEmpty(Clean(fields[k]).value)
      {
        CleanIsClean(fields[k]);
      }
    case _ =>
  }

  lemma {:induction false} CleanItemsAreClean(items: seq<Json>)
    ensures forall i | 0 <= i < |CleanItems(items)| :: NoEmpty(CleanItems(items)[i])
    decreases items, 0
  {
    if items != [] {
      CleanItemsAreClean(items[..|items|-1]);
      CleanIsClean(items[|items|-1]);
    }
  }

  /** A tree without empty values is left as it is. */
  lemma {:induction false} CleanStays(j: Json)
    requires NoEmpty(j)
    ensures Clean(j) == Some(j)
    decreases j, 1
  {
    match j
    case Array(items) => CleanItemsStay(items);
    case Object(fields) =>
      forall k | k in fields
        ensures Clean(fields[k]) == Some(fields[k])
      {
        CleanStays(fields[k]);
      }
      assert CleanFields(j) == fields;
    case _ =>
  }

  lemma {:induction false} CleanItemsStay(items: seq<Json>)
    requires forall i | 0 <= i < |items| :: NoEmpty(items[i])
    ensures CleanItems(items) == items
    decreases items, 0
  {
    if items != [] {
      var n := |items| - 1;
      CleanItemsStay(items[..n]);
      CleanStays(items[n]);
      assert items == items[..n] + [items[n]];
    }
  }

  /** Cleaning is idempotent, and changes exactly the trees that hold an empty value. */
  lemma CleanIdempotent(j: Json)
    ensures Clean(j) == Some(j) <==> NoEmpty(j)
    ensures Clean(j).Some? ==> Clean(Clean(j).value) == Clean(j)
  {
    CleanIsClean(j);
    if Clean(j).Some? {
      CleanStays(Clean(j).value);
    }
    if NoEmpty(j) {
      CleanStays(j);
    }
  }

  // ---------------------------------------------------------------- what is kept

  /** The non-empty leaves under a path of object keys, in document order; positions in arrays are not part of the
      path. */
  function Leaves(j: Json, path: seq<string>): seq<Json>
    decreases j, 1
  {
    match j
    case Array(items) => LeavesOfItems(items, path)
    case Object(fields) => if path != [] && path[0] in fields then Leaves(fields[path[0]], path[1..]) else []
    case _ => if path == [] && !EmptyLeaf(j) then [j] else []
  }

  function LeavesOfItems(items: seq<Json>, path: seq<string>): seq<Json>
    decreases items, 0
  {
    if items == [] then []
    else LeavesOfItems(items[..|items|-1], path) + Leaves(items[|items|-1], path)
  }

  function LeavesOf(r: Option<Json>, path: seq<string>): seq<Json> {
    match r case None => [] case Some(j) => Leaves(j, path)
  }

  /** Every non-empty leaf survives under its key path, in its order, and no leaf is added. */
  lemma {:induction false} CleanKeepsLeaves(j: Json, path: seq<string>)
    ensures LeavesOf(Clean(j), path) == Leaves(j, path)
    decreases j, 1
  {
    match j
    case Array(items) => CleanItemsKeepLeaves(items, path);
    case Object(fields) =>
      if path != [] && path[0] in fields {
        CleanKeepsLeaves(fields[path[0]], path[1..]);
      }
      var kept := CleanFields(j);
      assert kept == map[] ==> path == [] || path[0] !in kept;
    case _ =>
  }

  lemma {:induction false} CleanItemsKeepLeaves(items: seq<Json>, path: seq<string>)
    ensures LeavesOfItems(CleanItems(items), path) == LeavesOfItems(items, path)
    decreases items, 0
  {
    if items != [] {
      var n := |items| - 1;
      var kept := CleanItems(items[..n]);
      CleanItemsKeepLeaves(items[..n], path);
      CleanKeepsLeaves(items[n], path);
      if Clean(items[n]).Some? {
        assert CleanItems(items)[..|kept|] == kept;
      }
    }
  }

  // ---------------------------------------------------------------- the shape of the result

  /** Without a non-empty leaf. */
  ghost predicate Barren(j: Json) { forall path :: Leaves(j, path) == [] }

  /** r is j with barren items and fields dropped here and there: leaves are the same, arrays stay arrays in order, and
      objects stay objects. */
  ghost predicate Pruned(r: Json, j: Json)
    decreases j, 1
  {
    match j
    case Array(items) => r.Array? && PrunedItems(r.items, items)
    case Object(fields) =>
      && r.Object? && r.fields.Keys <= fields.Keys
      && (forall k | k in r.fields :: Pruned(r.fields[k], fields[k]))
      && (forall k | k in fields && k !in r.fields :: Barren(fields[k]))
    case _ => r == j
  }

  ghost predicate PrunedItems(rs: seq<Json>, items: seq<Json>)
    decreases items, 0
  {
    if items == [] then rs == []
    else
      var n := |items| - 1;
      || (Barren(items[n]) && PrunedItems(rs, items[..n]))
      || (rs != [] && Pruned(rs[|rs|-1], items[n]) && PrunedItems(rs[..|rs|-1], items[..n]))
  }

  /** What remains is a pruning. */
  lemma {:induction false} CleanPrunes(j: Json)
    ensures Clean(j).Some? ==> Pruned(Clean(j).value, j)
    decreases j, 1
  {
    match j
    case Array(items) => CleanItemsPrune(items);
    case Object(fields) =>
      forall k | k in fields
        ensures Clean(fields[k]).Some? ==> Pruned(Clean(fields[k]).value, fields[k])
        ensures Clean(fields[k]).None? ==> Barren(fields[k])
      {
        CleanPrunes(fields[k]);
        NothingRemains(fields[k]);
      }
    case _ =>
  }

  lemma {:induction false} CleanItemsPrune(items: seq<Json>)
    ensures PrunedItems(CleanItems(items), items)
    decreases items, 0
  {
    if items != [] {
      var n := |items| - 1;
      CleanItemsPrune(items[..n]);
      CleanPrunes(items[n]);
      NothingRemains(items[n]);
      var rs, kept := CleanItems(items), CleanItems(items[..n]);
      if Clean(items[n]).Some? {
        assert rs == kept + [Clean(items[n]).value];
        assert rs[..|rs|-1] == kept;
      } else {
        assert rs == kept && Barren(items[n]);
      }
    }
  }

  /** A pruning without empty values is what cleaning gives. */
  lemma {:induction false} PrunedIsClean(j: Json, r: Json)
    requires Pruned(r, j) && NoEmpty(r)
    ensures Clean(j) == Some(r)
    decreases j, 1
  {
    match j
    case Array(items) => PrunedItemsAreClean(items, r.items);
    case Object(fields) =>
      forall k | k in fields
        ensures k in r.fields ==> Clean(fields[k]) == Some(r.fields[k])
        ensures k !in r.fields ==> Clean(fields[k]).None?
      {
        if k in r.fields {
          PrunedIsClean(fields[k], r.fields[k]);
        } else {
          NothingRemains(fields[k]);
        }
      }
      assert CleanFields(j) == r.fields;
    case _ =>
  }

  lemma {:induction false} PrunedItemsAreClean(items: seq<Json>, rs: seq<Json>)
    requires PrunedItems(rs, items) && forall i | 0 <= i < |rs| :: NoEmpty(rs[i])
    ensures CleanItems(items) == rs
    decreases items, 0
  {
    if items != [] {
      var n := |items| - 1;
      if Barren(items[n]) && PrunedItems(rs, items[..n]) {
        NothingRemains(items[n]);
        PrunedItemsAreClean(items[..n], rs);
      } else {
        PrunedIsClean(items[n], rs[|rs|-1]);
        PrunedItemsAreClean(items[..n], rs[..|rs|-1]);
        assert rs == rs[..|rs|-1] + [rs[|rs|-1]];
      }
    }
  }

  /** Cleaning gives the one pruning of the tree that holds no empty value. */
  lemma CleanIsThePruning(j: Json, r: Json)
    ensures Clean(j) == Some(r) <==> Pruned(r, j) && NoEmpty(r)
  {
    CleanPrunes(j);
    CleanIsClean(j);
    if Pruned(r, j) && NoEmpty(r) {
      PrunedIsClean(j, r);
    }
  }

  lemma {:induction false} SomeLeaf(j: Json) returns (path: seq<string>)
    requires NoEmpty(j)
    ensures Leaves(j, path) != []
  {
    match j
    case Array(items) =>
      path := SomeLeaf(items[|items|-1]);
    case Object(fields) =>
      var k :| k in fields;
      var rest := SomeLeaf(fields[k]);
      path := [k] + rest;
      assert path[1..] == rest;
    case _ =>
      path := [];
  }

  /** Nothing remains exactly when the tree holds no non-empty leaf at all. */
  lemma NothingRemains(j: Json)
    ensures Clean(j).None? <==> forall path :: Leaves(j, path) == []
  {
    forall path
      ensures LeavesOf(Clean(j), path) == Leaves(j, path)
    {
      CleanKeepsLeaves(j, path);
    }
    if Clean(j).Some? {
      CleanIsClean(j);
      var path := SomeLeaf(Clean(j).value);
      assert Leaves(j, path) != [];
    }
  }
}
