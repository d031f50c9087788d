/** The structured diff of two test-case versions, and a strict patch showing that the leaf
    changes alone rebuild version B from version A. */
module CaseDiff {
  import opened Prelude

  // ----- normalized content -----

  datatype Json =
    | Null
    | Bool(b: bool)
    | Num(n: real)
    | Str(s: string)
    | List(items: seq<Json>)
    | Dict(entries: map<string, Json>)

  datatype Part = Key(k: string) | Index(i: nat)

  type Path = seq<Part>

  datatype ChangeType = UNCHANGED | CHANGED | ADDED | REMOVED

  datatype Entry = Entry(path: Path, change: ChangeType, before: Json, after: Json, children: seq<Entry>)

  const FIELDS: seq<string> := [
    "type", "layer", "target_node", "preconditions", "steps", "expected",
    "oracle_source", "requirement_link", "status"]

  // ----- the diff tree -----

  function Added(path: Path, v: Json): Entry { Entry(path, ADDED, Null, v, []) }
  function Removed(path: Path, v: Json): Entry { Entry(path, REMOVED, v, Null, []) }

  function ContainerEntry(path: Path, before: Json, after: Json, children: seq<Entry>): Entry {
    var change := if exists i :: 0 <= i < |children| && children[i].change != UNCHANGED then CHANGED else UNCHANGED;
    Entry(path, change, before, after, children)
  }

  function Diff(before: Json, after: Json, path: Path): Entry
    decreases before, 1
  {
    if before.Dict? && after.Dict? then
      ContainerEntry(path, before, after, KeyChildren(before, after, SortedKeys(before.entries.Keys + after.entries.Keys), path))
    else if before.List? && after.List? then
      ContainerEntry(path, before, after, ItemChildren(before, after, path))
    else if before == after then Entry(path, UNCHANGED, before, after, [])
    else Entry(path, CHANGED, before, after, [])
  }

  function KeyChild(before: Json, after: Json, k: string, path: Path): Entry
    requires before.Dict? && after.Dict?
    requires k in before.entries || k in after.entries
    decreases before, 0, 0
  {
    if k in before.entries && k in after.entries then Diff(before.entries[k], after.entries[k], path + [Key(k)])
    else if k in after.entries then Added(path + [Key(k)], after.entries[k])
    else Removed(path + [Key(k)], before.entries[k])
  }

  function KeyChildren(before: Json, after: Json, ks: seq<string>, path: Path): (r: seq<Entry>)
    requires before.Dict? && after.Dict?
    requires forall i :: 0 <= i < |ks| ==> ks[i] in before.entries || ks[i] in after.entries
    ensures |r| == |ks|
    decreases before, 0, 1
  {
    seq(|ks|, i requires 0 <= i < |ks| => KeyChild(before, after, ks[i], path))
  }

  function Longer(a: nat, b: nat): (r: nat)
    ensures r == a || r == b
    ensures r >= a && r >= b
  {
    if a < b then b else a
  }

  function ItemChild(before: Json, after: Json, i: nat, path: Path): Entry
    requires before.List? && after.List?
    requires i < Longer(|before.items|, |after.items|)
    decreases before, 0, 0
  {
    if i < |before.items| && i < |after.items| then Diff(before.items[i], after.items[i], path + [Index(i)])
    else if i < |after.items| then Added(path + [Index(i)], after.items[i])
    else Removed(path + [Index(i)], before.items[i])
  }

  function ItemChildren(before: Json, after: Json, path: Path): (r: seq<Entry>)
    requires before.List? && after.List?
    ensures |r| == Longer(|before.items|, |after.items|)
    decreases before, 0, 1
  {
    seq(Longer(|before.items|, |after.items|),
        i requires 0 <= i < Longer(|before.items|, |after.items|) => ItemChild(before, after, i, path))
  }

  // ----- the leaf view -----

  function Leaves(e: Entry): seq<Entry>
    decreases e, 0
  {
    if e.change == UNCHANGED then []
    else if e.children != [] then LeavesAll(e.children)
    else [e]
  }

  function LeavesAll(es: seq<Entry>): seq<Entry>
    decreases es, 1
  {
    if es == [] then [] else Leaves(es[0]) + LeavesAll(es[1..])
  }

  /** A version's content: exactly the compared fields. */
  predicate IsContent(m: map<string, Json>) {
    m.Keys == set f | f in FIELDS
  }

  function Fields(a: map<string, Json>, b: map<string, Json>): seq<Entry>
    requires IsContent(a) && IsContent(b)
  {
    KeyChildren(Dict(a), Dict(b), FIELDS, [])
  }

  function Changes(a: map<string, Json>, b: map<string, Json>): seq<Entry>
    requires IsContent(a) && IsContent(b)
  {
    LeavesAll(Fields(a, b))
  }

  // ----- exactness -----

  lemma {:induction false} UnchangedIffEqual(before: Json, after: Json, path: Path)
    ensures Diff(before, after, path).change == (if before == after then UNCHANGED else CHANGED)
    ensures Diff(before, after, path).path == path
    ensures Diff(before, after, path).before == before && Diff(before, after, path).after == after
    decreases before
  {
    if before.Dict? && after.Dict? {
      var ks := SortedKeys(before.entries.Keys + after.entries.Keys);
      var cs := KeyChildren(before, after, ks, path);
      forall i | 0 <= i < |ks|
        ensures cs[i].change == UNCHANGED <==>
                ks[i] in before.entries && ks[i] in after.entries && before.entries[ks[i]] == after.entries[ks[i]]
      {
        assert cs[i] == KeyChild(before, after, ks[i], path);
        if ks[i] in before.entries && ks[i] in after.entries {
          UnchangedIffEqual(before.entries[ks[i]], after.entries[ks[i]], path + [Key(ks[i])]);
        }
      }
      if forall i :: 0 <= i < |cs| ==> cs[i].change == UNCHANGED {
        forall k | k in before.entries.Keys + after.entries.Keys
          ensures k in before.entries && k in after.entries && before.entries[k] == after.entries[k]
        {
          assert k in ks;
        }
        assert before.entries == after.entries;
      }
    } else if before.List? && after.List? {
      var cs := ItemChildren(before, after, path);
      forall i | 0 <= i < |cs|
        ensures cs[i].change == UNCHANGED <==>
                i < |before.items| && i < |after.items| && before.items[i] == after.items[i]
      {
        assert cs[i] == ItemChild(before, after, i, path);
        if i < |before.items| && i < |after.items| {
          UnchangedIffEqual(before.items[i], after.items[i], path + [Index(i)]);
        }
      }
      if forall i :: 0 <= i < |cs| ==> cs[i].change == UNCHANGED {
        assert cs != [] ==> cs[|cs| - 1].change == UNCHANGED;
        assert before.items == after.items;
      }
    }
  }

  // ----- the strict patch -----

  /** Apply one leaf change to `v`, which sits `d` parts below the root. Every change checks
      what it replaces: a set or removal needs the old value in place, an addition needs the
      key to be free (or the index to exist or be one past the end). */
  function ApplyLeaf(v: Json, e: Entry, d: nat): Option<Json>
    requires d <= |e.path|
    decreases |e.path| - d
  {
    if d == |e.path| then
      if e.change == CHANGED && v == e.before then Some(e.after) else None
    else
      match v
      case Dict(m) =>
        if !e.path[d].Key? then None
        else var k := e.path[d].k;
          if d + 1 == |e.path| && e.change == ADDED then
            if k in m then None else Some(Dict(m[k := e.after]))
          else if k !in m then None
          else if d + 1 == |e.path| && e.change == REMOVED then
            if m[k] == e.before then Some(Dict(m - {k})) else None
          else (
            match ApplyLeaf(m[k], e, d + 1)
            case None => None
            case Some(w) => Some(Dict(m[k := w])))
      case List(xs) =>
        if !e.path[d].Index? then None
        else var i := e.path[d].i;
          if d + 1 == |e.path| && e.change == ADDED then
            if i <= |xs| then Some(List(xs[..i] + [e.after] + xs[i..])) else None
          else if i >= |xs| then None
          else if d + 1 == |e.path| && e.change == REMOVED then
            if xs[i] == e.before then Some(List(xs[..i] + xs[i + 1..])) else None
          else (
            match ApplyLeaf(xs[i], e, d + 1)
            case None => None
            case Some(w) => Some(List(xs[i := w])))
      case _ => None
  }

  predicate DeepEnough(es: seq<Entry>, d: nat) {
    forall i :: 0 <= i < |es| ==> |es[i].path| >= d
  }

  function ApplyAll(v: Json, es: seq<Entry>, d: nat): Option<Json>
    requires DeepEnough(es, d)
    decreases |es|
  {
    if es == [] then Some(v)
    else
      match ApplyLeaf(v, es[0], d)
      case None => None
      case Some(w) => ApplyAll(w, es[1..], d)
  }

  /** The entries a filter keeps. `Grow` is everything but removals. */
  datatype Pick = Grow | AddsOnly | RemovesOnly

  predicate Picked(p: Pick, e: Entry) {
    match p
    case Grow => e.change != REMOVED
    case AddsOnly => e.change == ADDED
    case RemovesOnly => e.change == REMOVED
  }

  function Select(p: Pick, es: seq<Entry>): (r: seq<Entry>)
    ensures forall i :: 0 <= i < |r| ==> r[i] in es && Picked(p, r[i])
  {
    if es == [] then []
    else if Picked(p, es[0]) then [es[0]] + Select(p, es[1..])
    else Select(p, es[1..])
  }

  /** Sets and additions in document order, then the removals from the last to the first (so
      that list indices still mean what they meant in the diff). */
  function Patch(v: Json, es: seq<Entry>): Option<Json> {
    match ApplyAll(v, Select(Grow, es), 0)
    case None => None
    case Some(w) => ApplyAll(w, Reverse(Select(RemovesOnly, es)), 0)
  }

  // ----- facts about ApplyAll -----

  lemma {:induction false} ApplyAppend(v: Json, xs: seq<Entry>, ys: seq<Entry>, d: nat)
    requires DeepEnough(xs, d) && DeepEnough(ys, d)
    ensures DeepEnough(xs + ys, d)
    ensures ApplyAll(v, xs + ys, d) ==
            match ApplyAll(v, xs, d) { case None => None case Some(w) => ApplyAll(w, ys, d) }
    decreases |xs|
  {
    if xs == [] {
      assert xs + ys == ys;
    } else {
      assert (xs + ys)[1..] == xs[1..] + ys;
      if ApplyLeaf(v, xs[0], d).Some? {
        ApplyAppend(ApplyLeaf(v, xs[0], d).value, xs[1..], ys, d);
      }
    }
  }

  function Swap(e: Entry): Entry
    decreases e
  {
    var change := match e.change
      case ADDED => REMOVED
      case REMOVED => ADDED
      case c => c;
    Entry(e.path, change, e.after, e.before,
          seq(|e.children|, i requires 0 <= i < |e.children| => Swap(e.children[i])))
  }

  function SwapAll(es: seq<Entry>): (r: seq<Entry>)
    ensures |r| == |es|
    ensures forall i :: 0 <= i < |r| ==> r[i] == Swap(es[i])
  {
    seq(|es|, i requires 0 <= i < |es| => Swap(es[i]))
  }

  lemma {:induction false} SwapTwice(e: Entry)
    ensures Swap(Swap(e)) == e
  {
    forall i | 0 <= i < |e.children| ensures Swap(Swap(e.children[i])) == e.children[i] {
      SwapTwice(e.children[i]);
    }
    assert Swap(Swap(e)).children == e.children;
  }

  /** A leaf change that applies is undone by its swap. */
  lemma {:induction false} LeafUndo(v: Json, e: Entry, d: nat)
    requires d <= |e.path| && e.change != UNCHANGED
    requires ApplyLeaf(v, e, d).Some?
    ensures ApplyLeaf(ApplyLeaf(v, e, d).value, Swap(e), d) == Some(v)
    decreases |e.path| - d, 1
  {
    if d < |e.path| {
      if v.Dict? { KeyUndo(v.entries, e, d); } else { ItemUndo(v.items, e, d); }
    }
  }

  lemma {:induction false} KeyUndo(m: map<string, Json>, e: Entry, d: nat)
    requires d < |e.path| && e.change != UNCHANGED
    requires ApplyLeaf(Dict(m), e, d).Some?
    ensures ApplyLeaf(ApplyLeaf(Dict(m), e, d).value, Swap(e), d) == Some(Dict(m))
    decreases |e.path| - d, 0
  {
    var k := e.path[d].k;
    if d + 1 == |e.path| && e.change == ADDED {
      assert m[k := e.after] - {k} == m;
    } else if d + 1 == |e.path| && e.change == REMOVED {
      assert (m - {k})[k := e.before] == m;
    } else {
      LeafUndo(m[k], e, d + 1);
      var w := ApplyLeaf(m[k], e, d + 1).value;
      assert m[k := w][k := m[k]] == m;
    }
  }

  lemma TakenOutAgain(xs: seq<Json>, i: nat, x: Json)
    requires i <= |xs|
    ensures var ys := xs[..i] + [x] + xs[i..]; |ys| == |xs| + 1 && ys[i] == x && ys[..i] + ys[i + 1..] == xs
  {
  }

  lemma PutBackAgain(xs: seq<Json>, i: nat)
    requires i < |xs|
    ensures var ys := xs[..i] + xs[i + 1..]; |ys| == |xs| - 1 && ys[..i] + [xs[i]] + ys[i..] == xs
  {
  }

  lemma {:induction false} ItemUndo(xs: seq<Json>, e: Entry, d: nat)
    requires d < |e.path| && e.change != UNCHANGED
    requires ApplyLeaf(List(xs), e, d).Some?
    ensures ApplyLeaf(ApplyLeaf(List(xs), e, d).value, Swap(e), d) == Some(List(xs))
    decreases |e.path| - d, 0
  {
    var i := e.path[d].i;
    if d + 1 == |e.path| && e.change == ADDED {
      TakenOutAgain(xs, i, e.after);
    } else if d + 1 == |e.path| && e.change == REMOVED {
      PutBackAgain(xs, i);
    } else {
      LeafUndo(xs[i], e, d + 1);
      var w := ApplyLeaf(xs[i], e, d + 1).value;
      assert xs[i := w][i := xs[i]] == xs;
    }
  }

  lemma {:induction false} UndoAll(v: Json, es: seq<Entry>, d: nat)
    requires DeepEnough(es, d) && forall i :: 0 <= i < |es| ==> es[i].change != UNCHANGED
    requires ApplyAll(v, es, d).Some?
    ensures DeepEnough(Reverse(SwapAll(es)), d)
    ensures ApplyAll(ApplyAll(v, es, d).value, Reverse(SwapAll(es)), d) == Some(v)
    decreases |es|
  {
    if es != [] {
      var w := ApplyLeaf(v, es[0], d).value;
      LeafUndo(v, es[0], d);
      UndoAll(w, es[1..], d);
      assert SwapAll(es)[1..] == SwapAll(es[1..]);
      ApplyAppend(ApplyAll(v, es, d).value, Reverse(SwapAll(es[1..])), [Swap(es[0])], d);
      assert ApplyAll(w, [Swap(es[0])], d) == ApplyLeaf(w, Swap(es[0]), d);
    }
  }

  lemma {:induction false} SelectAppend(p: Pick, xs: seq<Entry>, ys: seq<Entry>)
    ensures Select(p, xs + ys) == Select(p, xs) + Select(p, ys)
    decreases |xs|
  {
    if xs == [] {
      assert xs + ys == ys;
    } else {
      assert (xs + ys)[1..] == xs[1..] + ys;
      SelectAppend(p, xs[1..], ys);
    }
  }

  // ----- diffing the other way round -----

  lemma ContainerSwap(path: Path, a: Json, b: Json, cs: seq<Entry>)
    ensures Swap(ContainerEntry(path, a, b, cs)) == ContainerEntry(path, b, a, SwapAll(cs))
  {
    assert forall i :: 0 <= i < |cs| ==> (SwapAll(cs)[i].change != UNCHANGED <==> cs[i].change != UNCHANGED);
  }

  lemma {:induction false} DiffSwap(a: Json, b: Json, path: Path)
    ensures Diff(b, a, path) == Swap(Diff(a, b, path))
    decreases a, 1
  {
    if a.Dict? && b.Dict? {
      assert a.entries.Keys + b.entries.Keys == b.entries.Keys + a.entries.Keys;
      var ks := SortedKeys(a.entries.Keys + b.entries.Keys);
      KeyChildrenSwap(a, b, ks, path);
      ContainerSwap(path, a, b, KeyChildren(a, b, ks, path));
    } else if a.List? && b.List? {
      ItemChildrenSwap(a, b, path);
      ContainerSwap(path, a, b, ItemChildren(a, b, path));
    }
  }

  lemma {:induction false} KeyChildrenSwap(a: Json, b: Json, ks: seq<string>, path: Path)
    requires a.Dict? && b.Dict?
    requires forall i :: 0 <= i < |ks| ==> ks[i] in a.entries || ks[i] in b.entries
    ensures KeyChildren(b, a, ks, path) == SwapAll(KeyChildren(a, b, ks, path))
    decreases a, 0
  {
    forall i | 0 <= i < |ks| ensures KeyChild(b, a, ks[i], path) == Swap(KeyChild(a, b, ks[i], path)) {
      if ks[i] in a.entries && ks[i] in b.entries {
        DiffSwap(a.entries[ks[i]], b.entries[ks[i]], path + [Key(ks[i])]);
      }
    }
    var l, r := KeyChildren(b, a, ks, path), SwapAll(KeyChildren(a, b, ks, path));
    forall i | 0 <= i < |ks| ensures l[i] == r[i] {
      assert l[i] == KeyChild(b, a, ks[i], path);
    }
  }

  lemma {:induction false} ItemChildrenSwap(a: Json, b: Json, path: Path)
    requires a.List? && b.List?
    ensures ItemChildren(b, a, path) == SwapAll(ItemChildren(a, b, path))
    decreases a, 0
  {
    var n := Longer(|a.items|, |b.items|);
    forall i | 0 <= i < n ensures ItemChild(b, a, i, path) == Swap(ItemChild(a, b, i, path)) {
      if i < |a.items| && i < |b.items| {
        DiffSwap(a.items[i], b.items[i], path + [Index(i)]);
      }
    }
    var l, r := ItemChildren(b, a, path), SwapAll(ItemChildren(a, b, path));
    forall i | 0 <= i < n ensures l[i] == r[i] {
      assert l[i] == ItemChild(b, a, i, path);
    }
  }

  lemma {:induction false} LeavesSwap(e: Entry)
    ensures Leaves(Swap(e)) == SwapAll(Leaves(e))
    decreases e, 0
  {
    var cs := Swap(e).children;
    assert cs == SwapAll(e.children);
    LeavesAllSwap(e.children);
  }

  lemma {:induction false} LeavesAllSwap(es: seq<Entry>)
    ensures LeavesAll(SwapAll(es)) == SwapAll(LeavesAll(es))
    decreases es, 1
  {
    if es != [] {
      LeavesSwap(es[0]);
      LeavesAllSwap(es[1..]);
      assert SwapAll(es)[1..] == SwapAll(es[1..]);
      assert SwapAll(es)[0] == Swap(es[0]);
    }
  }

  lemma {:induction false} SelectSwap(es: seq<Entry>)
    ensures Select(AddsOnly, SwapAll(es)) == SwapAll(Select(RemovesOnly, es))
    decreases |es|
  {
    if es != [] {
      SelectSwap(es[1..]);
      assert SwapAll(es)[1..] == SwapAll(es[1..]);
    }
  }

  // ----- where the leaves are -----

  /** A leaf found below `path`: only a replaced value can sit exactly at `path`. */
  predicate Shaped(path: Path, e: Entry) {
    path <= e.path && e.change != UNCHANGED && (|e.path| == |path| ==> e.change == CHANGED)
  }

  lemma {:induction false} OwnerOf(es: seq<Entry>, e: Entry) returns (i: nat)
    requires e in LeavesAll(es)
    ensures i < |es| && e in Leaves(es[i])
  {
    if e in Leaves(es[0]) {
      i := 0;
    } else {
      i := OwnerOf(es[1..], e);
      i := i + 1;
    }
  }

  lemma {:induction false} LeavesShaped(a: Json, b: Json, path: Path)
    ensures forall e :: e in Leaves(Diff(a, b, path)) ==> Shaped(path, e)
    decreases a, 1
  {
    var root := Diff(a, b, path);
    if root.children != [] {
      forall e | e in Leaves(root) ensures Shaped(path, e) {
        var i := OwnerOf(root.children, e);
        if a.Dict? && b.Dict? {
          var ks := SortedKeys(a.entries.Keys + b.entries.Keys);
          var k := ks[i];
          assert root.children == KeyChildren(a, b, ks, path);
          assert root.children[i] == KeyChild(a, b, k, path);
          KeyLeavesShaped(a, b, k, path);
        } else {
          assert root.children == ItemChildren(a, b, path);
          assert root.children[i] == ItemChild(a, b, i, path);
          ItemLeavesShaped(a, b, i, path);
        }
      }
    }
  }

  lemma {:induction false} KeyLeavesShaped(a: Json, b: Json, k: string, path: Path)
    requires a.Dict? && b.Dict? && (k in a.entries || k in b.entries)
    ensures forall e :: e in Leaves(KeyChild(a, b, k, path)) ==>
              Shaped(path, e) && |e.path| > |path| && e.path[|path|] == Key(k)
    ensures k in a.entries && k in b.entries ==>
              forall e :: e in Leaves(KeyChild(a, b, k, path)) ==> Shaped(path + [Key(k)], e)
    decreases a, 0
  {
    if k in a.entries && k in b.entries {
      LeavesShaped(a.entries[k], b.entries[k], path + [Key(k)]);
    }
  }

  lemma {:induction false} ItemLeavesShaped(a: Json, b: Json, i: nat, path: Path)
    requires a.List? && b.List? && i < Longer(|a.items|, |b.items|)
    ensures forall e :: e in Leaves(ItemChild(a, b, i, path)) ==>
              Shaped(path, e) && |e.path| > |path| && e.path[|path|] == Index(i)
    ensures i < |a.items| && i < |b.items| ==>
              forall e :: e in Leaves(ItemChild(a, b, i, path)) ==> Shaped(path + [Index(i)], e)
    decreases a, 0
  {
    if i < |a.items| && i < |b.items| {
      LeavesShaped(a.items[i], b.items[i], path + [Index(i)]);
    }
  }

  // ----- one half of a patch: adding, with or without overwriting -----

  /** `x` extended by what `y` has more of; where both hold a value and at least one of them
      is no container (or they differ in kind), `take` picks `y`'s. */
  function Extend(take: bool, x: Json, y: Json): Json
    decreases x, 1
  {
    if x.Dict? && y.Dict? then
      Dict(map k | k in x.entries.Keys + y.entries.Keys :: ExtendKey(take, x, y, k))
    else if x.List? && y.List? then
      List(ExtendItems(take, x, y))
    else if take then y
    else x
  }

  function ExtendKey(take: bool, x: Json, y: Json, k: string): Json
    requires x.Dict? && y.Dict? && (k in x.entries || k in y.entries)
    decreases x, 0, 0
  {
    if k in x.entries && k in y.entries then Extend(take, x.entries[k], y.entries[k])
    else if k in x.entries then x.entries[k]
    else y.entries[k]
  }

  function ExtendItem(take: bool, x: Json, y: Json, i: nat): Json
    requires x.List? && y.List? && i < Longer(|x.items|, |y.items|)
    decreases x, 0, 0
  {
    if i < |x.items| && i < |y.items| then Extend(take, x.items[i], y.items[i])
    else if i < |x.items| then x.items[i]
    else y.items[i]
  }

  function ExtendItems(take: bool, x: Json, y: Json): (r: seq<Json>)
    requires x.List? && y.List?
    ensures |r| == Longer(|x.items|, |y.items|)
    decreases x, 0, 1
  {
    seq(Longer(|x.items|, |y.items|),
        i requires 0 <= i < Longer(|x.items|, |y.items|) => ExtendItem(take, x, y, i))
  }

  lemma {:induction false} ExtendMeets(x: Json, y: Json)
    ensures Extend(true, x, y) == Extend(false, y, x)
    decreases x
  {
    var l, r := Extend(true, x, y), Extend(false, y, x);
    if x.Dict? && y.Dict? {
      forall k | k in x.entries.Keys + y.entries.Keys
        ensures ExtendKey(true, x, y, k) == ExtendKey(false, y, x, k)
      {
        if k in x.entries && k in y.entries { ExtendMeets(x.entries[k], y.entries[k]); }
      }
      assert l.entries == r.entries;
    } else if x.List? && y.List? {
      assert l.items == ExtendItems(true, x, y) && r.items == ExtendItems(false, y, x);
      forall i | 0 <= i < |l.items| ensures l.items[i] == r.items[i] {
        assert l.items[i] == ExtendItem(true, x, y, i) && r.items[i] == ExtendItem(false, y, x, i);
        if i < |x.items| && i < |y.items| { ExtendMeets(x.items[i], y.items[i]); }
      }
      assert l.items == r.items;
    }
  }

  function PickFor(take: bool): Pick { if take then Grow else AddsOnly }

  predicate Below(es: seq<Entry>, d: nat, part: Part) {
    forall i :: 0 <= i < |es| ==>
      |es[i].path| > d && es[i].path[d] == part && (|es[i].path| == d + 1 ==> es[i].change == CHANGED)
  }

  /** Changes below one key act on that key's value and nothing else. */
  lemma {:induction false} LiftKey(m: map<string, Json>, k: string, es: seq<Entry>, d: nat, y: Json)
    requires k in m && Below(es, d, Key(k)) && DeepEnough(es, d + 1) && DeepEnough(es, d)
    requires ApplyAll(m[k], es, d + 1) == Some(y)
    ensures ApplyAll(Dict(m), es, d) == Some(Dict(m[k := y]))
    decreases |es|
  {
    if es == [] {
      assert m[k := y] == m;
    } else {
      var w := ApplyLeaf(m[k], es[0], d + 1).value;
      assert es[0].path[d] == Key(k);
      LiftKey(m[k := w], k, es[1..], d, y);
      assert m[k := w][k := y] == m[k := y];
    }
  }

  lemma {:induction false} LiftItem(xs: seq<Json>, j: nat, es: seq<Entry>, d: nat, y: Json)
    requires j < |xs| && Below(es, d, Index(j)) && DeepEnough(es, d + 1) && DeepEnough(es, d)
    requires ApplyAll(xs[j], es, d + 1) == Some(y)
    ensures ApplyAll(List(xs), es, d) == Some(List(xs[j := y]))
    decreases |es|
  {
    if es == [] {
      assert xs[j := y] == xs;
    } else {
      var w := ApplyLeaf(xs[j], es[0], d + 1).value;
      assert es[0].path[d] == Index(j);
      LiftItem(xs[j := w], j, es[1..], d, y);
      assert xs[j := w][j := y] == xs[j := y];
    }
  }

  lemma LiftKeyLeaves(p: Pick, es: seq<Entry>, path: Path, m: map<string, Json>, k: string, y: Json)
    requires k in m && forall e :: e in es ==> Shaped(path + [Key(k)], e)
    requires DeepEnough(Select(p, es), |path + [Key(k)]|)
    requires ApplyAll(m[k], Select(p, es), |path + [Key(k)]|) == Some(y)
    ensures DeepEnough(Select(p, es), |path|)
    ensures ApplyAll(Dict(m), Select(p, es), |path|) == Some(Dict(m[k := y]))
  {
    SelectBelow(p, es, path, Key(k));
    LiftKey(m, k, Select(p, es), |path|, y);
  }

  lemma LiftItemLeaves(p: Pick, es: seq<Entry>, path: Path, xs: seq<Json>, j: nat, y: Json)
    requires j < |xs| && forall e :: e in es ==> Shaped(path + [Index(j)], e)
    requires DeepEnough(Select(p, es), |path + [Index(j)]|)
    requires ApplyAll(xs[j], Select(p, es), |path + [Index(j)]|) == Some(y)
    ensures DeepEnough(Select(p, es), |path|)
    ensures ApplyAll(List(xs), Select(p, es), |path|) == Some(List(xs[j := y]))
  {
    SelectBelow(p, es, path, Index(j));
    LiftItem(xs, j, Select(p, es), |path|, y);
  }

  lemma {:induction false} Extends(take: bool, x: Json, y: Json, path: Path)
    ensures DeepEnough(Select(PickFor(take), Leaves(Diff(x, y, path))), |path|)
    ensures ApplyAll(x, Select(PickFor(take), Leaves(Diff(x, y, path))), |path|) == Some(Extend(take, x, y))
    decreases x, 2, 0
  {
    if x.Dict? && y.Dict? {
      var ks := SortedKeys(x.entries.Keys + y.entries.Keys);
      ExtendsKeys(take, x, y, ks, path, x.entries);
      ContainerLeaves(path, x, y, KeyChildren(x, y, ks, path));
      ExtendIsUpdated(take, x, y, ks);
    } else if x.List? && y.List? {
      ExtendsItems(take, x, y, 0, path);
      ContainerLeaves(path, x, y, ItemChildren(x, y, path));
      ExtendIsGrown(take, x, y, path);
    } else if x != y {
      ScalarExtends(take, x, y, path);
    }
  }

  lemma ExtendIsUpdated(take: bool, x: Json, y: Json, ks: seq<string>)
    requires Covers(ks, x, y)
    ensures Dict(Updated(take, x, y, ks, x.entries)) == Extend(take, x, y)
  {
    var r, e := Updated(take, x, y, ks, x.entries), Extend(take, x, y).entries;
    UpdatedAt(take, x, y, ks, x.entries);
    CoversAll(ks, x, y);
    assert e.Keys == x.entries.Keys + y.entries.Keys;
    assert r.Keys == e.Keys;
    assert r == e;
  }

  lemma ExtendIsGrown(take: bool, x: Json, y: Json, path: Path)
    requires x.List? && y.List?
    ensures Grown(take, x, y, 0) == x.items
    ensures List(Grown(take, x, y, Longer(|x.items|, |y.items|))) == Extend(take, x, y)
    ensures ItemChildren(x, y, path)[0..] == ItemChildren(x, y, path)
  {
  }

  /** `ks` lists the keys of two dicts once each. */
  ghost predicate Covers(ks: seq<string>, a: Json, b: Json) {
    && a.Dict? && b.Dict?
    && (forall i, j :: 0 <= i < j < |ks| ==> ks[i] != ks[j])
    && (forall k :: k in ks <==> k in a.entries.Keys + b.entries.Keys)
    && (forall i :: 0 <= i < |ks| ==> ks[i] in a.entries || ks[i] in b.entries)
  }

  lemma CoversAll(ks: seq<string>, a: Json, b: Json)
    requires Covers(ks, a, b)
    ensures forall k :: k in ks <==> k in a.entries || k in b.entries
  {
    assert forall k :: k in ks <==> k in a.entries.Keys + b.entries.Keys;
  }

  lemma ScalarExtends(take: bool, x: Json, y: Json, path: Path)
    requires x != y && !(x.Dict? && y.Dict?) && !(x.List? && y.List?)
    ensures DeepEnough(Select(PickFor(take), Leaves(Diff(x, y, path))), |path|)
    ensures ApplyAll(x, Select(PickFor(take), Leaves(Diff(x, y, path))), |path|) == Some(Extend(take, x, y))
  {
    var e := Entry(path, CHANGED, x, y, []);
    assert Leaves(Diff(x, y, path)) == [e];
    assert Select(PickFor(take), [e]) == if take then [e] else [];
    assert ApplyAll(x, [e], |path|) == ApplyLeaf(x, e, |path|);
  }

  /** A container contributes exactly its children's leaves. */
  lemma ContainerLeaves(path: Path, x: Json, y: Json, cs: seq<Entry>)
    ensures Leaves(ContainerEntry(path, x, y, cs)) == LeavesAll(cs)
  {
    if forall i :: 0 <= i < |cs| ==> cs[i].change == UNCHANGED {
      AllUnchanged(cs);
    }
  }

  lemma {:induction false} AllUnchanged(es: seq<Entry>)
    requires forall i :: 0 <= i < |es| ==> es[i].change == UNCHANGED
    ensures LeavesAll(es) == []
  {
    if es != [] { AllUnchanged(es[1..]); }
  }

  /** `m` after the keys `ks` have been brought to their targets. */
  function Updated(take: bool, x: Json, y: Json, ks: seq<string>, m: map<string, Json>): map<string, Json>
    requires x.Dict? && y.Dict?
    requires forall i :: 0 <= i < |ks| ==> ks[i] in x.entries || ks[i] in y.entries
    decreases |ks|
  {
    if ks == [] then m
    else Updated(take, x, y, ks[1..], m[ks[0] := ExtendKey(take, x, y, ks[0])])
  }

  lemma {:induction false} UpdatedAt(take: bool, x: Json, y: Json, ks: seq<string>, m: map<string, Json>)
    requires x.Dict? && y.Dict?
    requires forall i :: 0 <= i < |ks| ==> ks[i] in x.entries || ks[i] in y.entries
    ensures var r := Updated(take, x, y, ks, m);
            && (forall k :: k in r <==> k in m || k in ks)
            && forall k :: k in r ==> r[k] == if k in ks then ExtendKey(take, x, y, k) else m[k]
    decreases |ks|
  {
    if ks != [] {
      UpdatedAt(take, x, y, ks[1..], m[ks[0] := ExtendKey(take, x, y, ks[0])]);
      assert forall k :: k in ks <==> k == ks[0] || k in ks[1..];
    }
  }

  lemma {:induction false} ExtendsKey(take: bool, x: Json, y: Json, k: string, path: Path, m: map<string, Json>)
    requires x.Dict? && y.Dict? && (k in x.entries || k in y.entries)
    requires k in m <==> k in x.entries
    requires k in m ==> m[k] == x.entries[k]
    ensures var es := Select(PickFor(take), Leaves(KeyChild(x, y, k, path)));
            DeepEnough(es, |path|) && ApplyAll(Dict(m), es, |path|) == Some(Dict(m[k := ExtendKey(take, x, y, k)]))
    decreases x, 1, 0
  {
    if k in x.entries && k in y.entries {
      LeavesShaped(x.entries[k], y.entries[k], path + [Key(k)]);
      Extends(take, x.entries[k], y.entries[k], path + [Key(k)]);
      LiftKeyLeaves(PickFor(take), Leaves(Diff(x.entries[k], y.entries[k], path + [Key(k)])), path, m, k,
                    Extend(take, x.entries[k], y.entries[k]));
    } else if k in y.entries {
      OneAddition(take, Added(path + [Key(k)], y.entries[k]), Dict(m));
    } else {
      OneRemoval(take, Removed(path + [Key(k)], x.entries[k]));
      assert m[k := m[k]] == m;
    }
  }

  lemma OneAddition(take: bool, e: Entry, v: Json)
    requires e.change == ADDED && e.children == [] && e.path != []
    ensures Select(PickFor(take), Leaves(e)) == [e]
    ensures ApplyAll(v, [e], |e.path| - 1) == ApplyLeaf(v, e, |e.path| - 1)
  {
    assert Leaves(e) == [e];
  }

  lemma OneRemoval(take: bool, e: Entry)
    requires e.change == REMOVED && e.children == []
    ensures Select(PickFor(take), Leaves(e)) == []
  {
    assert Leaves(e) == [e];
  }

  lemma {:induction false} ExtendsKeys(take: bool, x: Json, y: Json, ks: seq<string>, path: Path, m: map<string, Json>)
    requires x.Dict? && y.Dict?
    requires forall i :: 0 <= i < |ks| ==> ks[i] in x.entries || ks[i] in y.entries
    requires forall i, j :: 0 <= i < j < |ks| ==> ks[i] != ks[j]
    requires forall k :: k in ks ==> (k in m <==> k in x.entries) && (k in m ==> m[k] == x.entries[k])
    ensures var es := Select(PickFor(take), LeavesAll(KeyChildren(x, y, ks, path)));
            DeepEnough(es, |path|) && ApplyAll(Dict(m), es, |path|) == Some(Dict(Updated(take, x, y, ks, m)))
    decreases x, 1, |ks| + 1
  {
    if ks != [] {
      var cs := KeyChildren(x, y, ks, path);
      assert cs[0] == KeyChild(x, y, ks[0], path);
      assert cs[1..] == KeyChildren(x, y, ks[1..], path);
      ExtendsKey(take, x, y, ks[0], path, m);
      var m' := m[ks[0] := ExtendKey(take, x, y, ks[0])];
      ExtendsKeys(take, x, y, ks[1..], path, m');
      SelectAppend(PickFor(take), Leaves(cs[0]), LeavesAll(cs[1..]));
      ApplyAppend(Dict(m), Select(PickFor(take), Leaves(cs[0])), Select(PickFor(take), LeavesAll(cs[1..])), |path|);
    }
  }

  /** `x`'s items with the first `i` brought to their targets. */
  function Grown(take: bool, x: Json, y: Json, i: nat): seq<Json>
    requires x.List? && y.List? && i <= Longer(|x.items|, |y.items|)
  {
    ExtendItems(take, x, y)[..i] + (if i < |x.items| then x.items[i..] else [])
  }

  lemma {:induction false} ExtendsItem(take: bool, x: Json, y: Json, i: nat, path: Path)
    requires x.List? && y.List? && i < Longer(|x.items|, |y.items|)
    ensures var es := Select(PickFor(take), Leaves(ItemChild(x, y, i, path)));
            DeepEnough(es, |path|) &&
            ApplyAll(List(Grown(take, x, y, i)), es, |path|) == Some(List(Grown(take, x, y, i + 1)))
    decreases x, 1, 0
  {
    var xs := Grown(take, x, y, i);
    GrownStep(take, x, y, i);
    if i < |x.items| && i < |y.items| {
      LeavesShaped(x.items[i], y.items[i], path + [Index(i)]);
      Extends(take, x.items[i], y.items[i], path + [Index(i)]);
      LiftItemLeaves(PickFor(take), Leaves(Diff(x.items[i], y.items[i], path + [Index(i)])), path, xs, i,
                     Extend(take, x.items[i], y.items[i]));
    } else if i < |y.items| {
      OneAddition(take, Added(path + [Index(i)], y.items[i]), List(xs));
    } else {
      OneRemoval(take, Removed(path + [Index(i)], x.items[i]));
    }
  }

  lemma GrownStep(take: bool, x: Json, y: Json, i: nat)
    requires x.List? && y.List? && i < Longer(|x.items|, |y.items|)
    ensures var xs, ys := Grown(take, x, y, i), Grown(take, x, y, i + 1);
            if i < |x.items| then
              && i < |xs| && xs[i] == x.items[i]
              && ys == if i < |y.items| then xs[i := ExtendItem(take, x, y, i)] else xs
            else
              i == |xs| && ys == xs[..i] + [y.items[i]] + xs[i..]
  {
    assert ExtendItems(take, x, y)[i] == ExtendItem(take, x, y, i);
  }

  lemma SelectBelow(p: Pick, es: seq<Entry>, path: Path, part: Part)
    requires forall e :: e in es ==> Shaped(path + [part], e)
    ensures Below(Select(p, es), |path|, part)
    ensures DeepEnough(Select(p, es), |path| + 1)
  {
    var r := Select(p, es);
    forall i | 0 <= i < |r|
      ensures |r[i].path| > |path| && r[i].path[|path|] == part && (|r[i].path| == |path| + 1 ==> r[i].change == CHANGED)
    {
      assert Shaped(path + [part], r[i]);
      assert r[i].path[|path|] == (path + [part])[|path|];
    }
  }

  lemma {:induction false} ExtendsItems(take: bool, x: Json, y: Json, i: nat, path: Path)
    requires x.List? && y.List? && i <= Longer(|x.items|, |y.items|)
    ensures var es := Select(PickFor(take), LeavesAll(ItemChildren(x, y, path)[i..]));
            DeepEnough(es, |path|) &&
            ApplyAll(List(Grown(take, x, y, i)), es, |path|) ==
            Some(List(Grown(take, x, y, Longer(|x.items|, |y.items|))))
    decreases x, 1, Longer(|x.items|, |y.items|) - i + 1
  {
    var cs := ItemChildren(x, y, path);
    if i < |cs| {
      assert cs[i] == ItemChild(x, y, i, path);
      assert cs[i..][1..] == cs[i + 1..];
      ExtendsItem(take, x, y, i, path);
      ExtendsItems(take, x, y, i + 1, path);
      SelectAppend(PickFor(take), Leaves(cs[i]), LeavesAll(cs[i + 1..]));
      ApplyAppend(List(Grown(take, x, y, i)), Select(PickFor(take), Leaves(cs[i])),
                  Select(PickFor(take), LeavesAll(cs[i + 1..])), |path|);
    }
  }

  // ----- the theorems about changes() -----

  lemma FieldsDistinct()
    ensures forall i, j :: 0 <= i < j < |FIELDS| ==> FIELDS[i] != FIELDS[j]
  {
    forall i, j | 0 <= i < j < |FIELDS| ensures FIELDS[i] != FIELDS[j] {
      var n := set f | f in FIELDS;
    }
  }

  /** The middle of a patch is the same from both sides. */
  lemma MiddleMeets(ks: seq<string>, a: Json, b: Json)
    requires Covers(ks, a, b)
    ensures Updated(true, a, b, ks, a.entries) == Updated(false, b, a, ks, b.entries)
  {
    ExtendIsUpdated(true, a, b, ks);
    ExtendIsUpdated(false, b, a, ks);
    ExtendMeets(a, b);
  }

  /** The removals of one direction, last to first, undo the additions of the other. */
  lemma RemovalsUndo(v: Json, es: seq<Entry>, w: Json)
    requires ApplyAll(v, Select(AddsOnly, SwapAll(es)), 0) == Some(w)
    ensures ApplyAll(w, Reverse(Select(RemovesOnly, es)), 0) == Some(v)
  {
    SelectSwap(es);
    var adds, removes := Select(AddsOnly, SwapAll(es)), Select(RemovesOnly, es);
    UndoAll(v, adds, 0);
    forall i | 0 <= i < |removes| ensures SwapAll(adds)[i] == removes[i] {
      SwapTwice(removes[i]);
    }
    assert SwapAll(adds) == removes;
  }

  lemma PatchOver(ks: seq<string>, a: Json, b: Json)
    requires Covers(ks, a, b)
    ensures Patch(a, LeavesAll(KeyChildren(a, b, ks, []))) == Some(b)
  {
    var es := LeavesAll(KeyChildren(a, b, ks, []));
    ExtendsKeys(true, a, b, ks, [], a.entries);
    ExtendsKeys(false, b, a, ks, [], b.entries);
    MiddleMeets(ks, a, b);
    KeyChildrenSwap(a, b, ks, []);
    LeavesAllSwap(KeyChildren(a, b, ks, []));
    RemovalsUndo(b, es, Dict(Updated(true, a, b, ks, a.entries)));
  }

  lemma FieldsCover(a: map<string, Json>, b: map<string, Json>)
    requires IsContent(a) && IsContent(b)
    ensures Covers(FIELDS, Dict(a), Dict(b))
  {
    FieldsDistinct();
  }

  /** Applying the leaf changes to version A's content gives exactly version B's. */
  lemma PatchRebuildsB(a: map<string, Json>, b: map<string, Json>)
    requires IsContent(a) && IsContent(b)
    ensures Patch(Dict(a), Changes(a, b)) == Some(Dict(b))
  {
    FieldsCover(a, b);
    PatchOver(FIELDS, Dict(a), Dict(b));
  }

  lemma ChangesSwap(a: map<string, Json>, b: map<string, Json>)
    requires IsContent(a) && IsContent(b)
    ensures Fields(b, a) == SwapAll(Fields(a, b))
    ensures Changes(b, a) == SwapAll(Changes(a, b))
  {
    FieldsCover(a, b);
    KeyChildrenSwap(Dict(a), Dict(b), FIELDS, []);
    LeavesAllSwap(Fields(a, b));
  }

  /** No changes iff the contents are equal; a field is CHANGED iff its two values differ. */
  lemma ChangesExact(a: map<string, Json>, b: map<string, Json>)
    requires IsContent(a) && IsContent(b)
    ensures Changes(a, b) == [] <==> a == b
    ensures forall i :: 0 <= i < |FIELDS| ==>
              Fields(a, b)[i].change == (if a[FIELDS[i]] == b[FIELDS[i]] then UNCHANGED else CHANGED)
  {
    FieldsCover(a, b);
    forall i | 0 <= i < |FIELDS|
      ensures Fields(a, b)[i].change == (if a[FIELDS[i]] == b[FIELDS[i]] then UNCHANGED else CHANGED)
    {
      assert Fields(a, b)[i] == KeyChild(Dict(a), Dict(b), FIELDS[i], []);
      UnchangedIffEqual(a[FIELDS[i]], b[FIELDS[i]], [] + [Key(FIELDS[i])]);
    }
    if a == b {
      AllUnchanged(Fields(a, b));
    } else {
      PatchRebuildsB(a, b);
    }
  }

  ghost predicate Apart(p: Path, q: Path) {
    !(p <= q) && !(q <= p)
  }

  ghost predicate PrefixFree(es: seq<Entry>) {
    forall i, j :: 0 <= i < j < |es| ==> Apart(es[i].path, es[j].path)
  }

  predicate AtPart(e: Entry, d: nat, part: Part) {
    |e.path| > d && e.path[d] == part
  }

  lemma {:induction false} SiblingsPrefixFree(cs: seq<Entry>, d: nat, parts: seq<Part>)
    requires |parts| == |cs|
    requires forall i, j :: 0 <= i < j < |parts| ==> parts[i] != parts[j]
    requires forall i :: 0 <= i < |cs| ==> PrefixFree(Leaves(cs[i]))
    requires forall i, e :: 0 <= i < |cs| && e in Leaves(cs[i]) ==> AtPart(e, d, parts[i])
    ensures PrefixFree(LeavesAll(cs))
  {
    if cs != [] {
      SiblingsPrefixFree(cs[1..], d, parts[1..]);
      var l, r := Leaves(cs[0]), LeavesAll(cs[1..]);
      forall i, j | 0 <= i < |l| && 0 <= j < |r| ensures Apart(l[i].path, r[j].path) {
        var k := OwnerOf(cs[1..], r[j]);
        assert AtPart(l[i], d, parts[0]);
        assert AtPart(r[j], d, parts[k + 1]) by { assert cs[k + 1] == cs[1..][k]; }
      }
    }
  }

  lemma {:induction false} LeavesPrefixFree(a: Json, b: Json, path: Path)
    ensures PrefixFree(Leaves(Diff(a, b, path)))
    decreases a, 1
  {
    if a.Dict? && b.Dict? {
      var ks := SortedKeys(a.entries.Keys + b.entries.Keys);
      KeysPrefixFree(a, b, ks, path);
      ContainerLeaves(path, a, b, KeyChildren(a, b, ks, path));
    } else if a.List? && b.List? {
      ItemsPrefixFree(a, b, path);
      ContainerLeaves(path, a, b, ItemChildren(a, b, path));
    }
  }

  lemma {:induction false} KeysPrefixFree(a: Json, b: Json, ks: seq<string>, path: Path)
    requires Covers(ks, a, b)
    ensures PrefixFree(LeavesAll(KeyChildren(a, b, ks, path)))
    decreases a, 0
  {
    var cs := KeyChildren(a, b, ks, path);
    forall i | 0 <= i < |cs|
      ensures PrefixFree(Leaves(cs[i])) && forall e :: e in Leaves(cs[i]) ==> AtPart(e, |path|, Key(ks[i]))
    {
      assert cs[i] == KeyChild(a, b, ks[i], path);
      KeyLeavesShaped(a, b, ks[i], path);
      if ks[i] in a.entries && ks[i] in b.entries {
        LeavesPrefixFree(a.entries[ks[i]], b.entries[ks[i]], path + [Key(ks[i])]);
      }
    }
    SiblingsPrefixFree(cs, |path|, seq(|ks|, i requires 0 <= i < |ks| => Key(ks[i])));
  }

  lemma {:induction false} ItemsPrefixFree(a: Json, b: Json, path: Path)
    requires a.List? && b.List?
    ensures PrefixFree(LeavesAll(ItemChildren(a, b, path)))
    decreases a, 0
  {
    var cs := ItemChildren(a, b, path);
    forall i | 0 <= i < |cs|
      ensures PrefixFree(Leaves(cs[i])) && forall e :: e in Leaves(cs[i]) ==> AtPart(e, |path|, Index(i))
    {
      assert cs[i] == ItemChild(a, b, i, path);
      ItemLeavesShaped(a, b, i, path);
      if i < |a.items| && i < |b.items| {
        LeavesPrefixFree(a.items[i], b.items[i], path + [Index(i)]);
      }
    }
    SiblingsPrefixFree(cs, |path|, seq(|cs|, i requires 0 <= i < |cs| => Index(i)));
  }

  /** Leaf paths are pairwise distinct and none is a prefix of another. */
  lemma ChangesPrefixFree(a: map<string, Json>, b: map<string, Json>)
    requires IsContent(a) && IsContent(b)
    ensures PrefixFree(Changes(a, b))
  {
    FieldsCover(a, b);
    KeysPrefixFree(Dict(a), Dict(b), FIELDS, []);
  }

  // ----- normalization -----

  /** A stored field value; dictionary keys are already in their `str` form. */
  datatype Raw =
    | RawNull
    | RawBool(b: bool)
    | RawNum(n: real)
    | RawStr(s: string)
    | RawEnum(value: Json)
    | RawUuid(text: string)
    | RawSeq(items: seq<Raw>)
    | RawDict(pairs: seq<RawPair>)

  datatype RawPair = RawPair(key: string, value: Raw)

  function Normalize(v: Raw): Json
    decreases v, 0
  {
    match v
    case RawNull => Null
    case RawBool(b) => Bool(b)
    case RawNum(n) => Num(n)
    case RawStr(s) => Str(s)
    case RawEnum(value) => value
    case RawUuid(text) => Str(text)
    case RawSeq(items) => List(seq(|items|, i requires 0 <= i < |items| => Normalize(items[i])))
    case RawDict(pairs) => Dict(NormalizePairs(pairs))
  }

  /** Pairs in order; a later pair with the same key wins. */
  function NormalizePairs(pairs: seq<RawPair>): map<string, Json>
    decreases pairs, 1
  {
    if pairs == [] then map[]
    else
      var last := |pairs| - 1;
      NormalizePairs(pairs[..last])[pairs[last].key := Normalize(pairs[last].value)]
  }

  // ----- what a stored value means -----

  /** The last pair with key `k`, which is the one that counts. */
  function LastIndex(pairs: seq<RawPair>, k: string): (r: Option<nat>)
    ensures r.Some? ==> r.value < |pairs| && pairs[r.value].key == k
    ensures forall i :: 0 <= i < |pairs| && pairs[i].key == k ==> r.Some? && i <= r.value
  {
    if pairs == [] then None
    else
      var n := |pairs| - 1;
      if pairs[n].key == k then Some(n) else LastIndex(pairs[..n], k)
  }

  /** The stored value `v` is `j` on the wire: an enum is its value, a UUID its text, tuples and
      lists are lists, and of two pairs with one key the later counts. */
  ghost predicate ReadsAs(v: Raw, j: Json)
    decreases v
  {
    match v
    case RawNull => j == Null
    case RawBool(b) => j == Bool(b)
    case RawNum(n) => j == Num(n)
    case RawStr(s) => j == Str(s)
    case RawEnum(value) => j == value
    case RawUuid(text) => j == Str(text)
    case RawSeq(items) =>
      j.List? && |j.items| == |items| && forall i :: 0 <= i < |items| ==> ReadsAs(items[i], j.items[i])
    case RawDict(pairs) =>
      j.Dict? &&
      forall k ::
        match LastIndex(pairs, k)
        case None => k !in j.entries
        case Some(i) => k in j.entries && ReadsAs(pairs[i].value, j.entries[k])
  }

  lemma {:induction false} PairRead(pairs: seq<RawPair>, k: string)
    ensures match LastIndex(pairs, k)
            case None => k !in NormalizePairs(pairs)
            case Some(i) => k in NormalizePairs(pairs) && NormalizePairs(pairs)[k] == Normalize(pairs[i].value)
    decreases |pairs|
  {
    if pairs != [] && pairs[|pairs| - 1].key != k { PairRead(pairs[..|pairs| - 1], k); }
  }

  lemma {:induction false} NormalizeReads(v: Raw)
    ensures ReadsAs(v, Normalize(v))
    decreases v
  {
    match v {
      case RawSeq(items) =>
        forall i | 0 <= i < |items| ensures ReadsAs(items[i], Normalize(items[i])) { NormalizeReads(items[i]); }
      case RawDict(pairs) =>
        forall k
          ensures match LastIndex(pairs, k)
                  case None => k !in NormalizePairs(pairs)
                  case Some(i) => k in NormalizePairs(pairs) && ReadsAs(pairs[i].value, NormalizePairs(pairs)[k])
        {
          PairRead(pairs, k);
          if LastIndex(pairs, k).Some? { NormalizeReads(pairs[LastIndex(pairs, k).value].value); }
        }
      case _ =>
    }
  }

  /** A stored value has one meaning. */
  lemma {:induction false} ReadsOnce(v: Raw, j: Json, l: Json)
    requires ReadsAs(v, j) && ReadsAs(v, l)
    ensures j == l
    decreases v
  {
    match v {
      case RawSeq(items) =>
        forall i | 0 <= i < |items| ensures j.items[i] == l.items[i] { ReadsOnce(items[i], j.items[i], l.items[i]); }
        assert j.items == l.items;
      case RawDict(pairs) =>
        forall k ensures (k in j.entries <==> k in l.entries) && (k in j.entries ==> j.entries[k] == l.entries[k]) {
          if LastIndex(pairs, k).Some? {
            ReadsOnce(pairs[LastIndex(pairs, k).value].value, j.entries[k], l.entries[k]);
          }
        }
        assert j.entries.Keys == l.entries.Keys;
        assert j.entries == l.entries;
      case _ =>
    }
  }

  /** Normalization computes the meaning. */
  lemma NormalizeIsMeaning(v: Raw, j: Json)
    ensures Normalize(v) == j <==> ReadsAs(v, j)
  {
    NormalizeReads(v);
    if ReadsAs(v, j) { ReadsOnce(v, Normalize(v), j); }
  }

  /** The two stored values mean the same. */
  ghost predicate SameMeaning(x: Raw, y: Raw) {
    exists j :: ReadsAs(x, j) && ReadsAs(y, j)
  }

  lemma SameMeaningIff(x: Raw, y: Raw)
    ensures SameMeaning(x, y) <==> Normalize(x) == Normalize(y)
  {
    NormalizeReads(x);
    NormalizeReads(y);
    if j :| ReadsAs(x, j) && ReadsAs(y, j) {
      NormalizeIsMeaning(x, j);
      NormalizeIsMeaning(y, j);
    }
  }

  /** Enums mean the same iff their wire values are equal, and an enum the same as that value
      stored plainly; UUIDs iff their texts are equal, and a UUID the same as its text. */
  lemma WrappedScalars(v: Json, w: Json, a: string, b: string)
    ensures SameMeaning(RawEnum(v), RawEnum(w)) <==> v == w
    ensures SameMeaning(RawEnum(v), Plain(w)) <==> v == w
    ensures SameMeaning(RawUuid(a), RawUuid(b)) <==> a == b
    ensures SameMeaning(RawUuid(a), RawStr(b)) <==> a == b
    ensures SameMeaning(RawEnum(v), RawUuid(a)) <==> v == Str(a)
  {
    SameMeaningIff(RawEnum(v), RawEnum(w));
    SameMeaningIff(RawEnum(v), Plain(w));
    SameMeaningIff(RawUuid(a), RawUuid(b));
    SameMeaningIff(RawUuid(a), RawStr(b));
    SameMeaningIff(RawEnum(v), RawUuid(a));
    NormalizePlain(w);
  }

  /** At any depth: lists mean the same iff they do item by item, dictionaries iff they have
      the same keys and each key's last values mean the same. */
  lemma NestedMeaning(xs: seq<Raw>, ys: seq<Raw>)
    ensures SameMeaning(RawSeq(xs), RawSeq(ys)) <==>
            |xs| == |ys| && forall i :: 0 <= i < |xs| ==> SameMeaning(xs[i], ys[i])
  {
    SameMeaningIff(RawSeq(xs), RawSeq(ys));
    var l, r := Normalize(RawSeq(xs)).items, Normalize(RawSeq(ys)).items;
    forall i | 0 <= i < |xs| && i < |ys| ensures SameMeaning(xs[i], ys[i]) <==> l[i] == r[i] {
      SameMeaningIff(xs[i], ys[i]);
    }
    if |xs| == |ys| && forall i :: 0 <= i < |xs| ==> SameMeaning(xs[i], ys[i]) { assert l == r; }
  }

  /** The two dictionaries have key `k` alike: neither, or both and with one meaning. */
  ghost predicate KeyAlike(xs: seq<RawPair>, ys: seq<RawPair>, k: string) {
    match (LastIndex(xs, k), LastIndex(ys, k))
    case (None, None) => true
    case (Some(i), Some(j)) => SameMeaning(xs[i].value, ys[j].value)
    case _ => false
  }

  lemma KeyAlikeIff(xs: seq<RawPair>, ys: seq<RawPair>, k: string)
    ensures var l, r := NormalizePairs(xs), NormalizePairs(ys);
            KeyAlike(xs, ys, k) <==> (k in l <==> k in r) && (k in l && k in r ==> l[k] == r[k])
  {
    PairRead(xs, k);
    PairRead(ys, k);
    if LastIndex(xs, k).Some? && LastIndex(ys, k).Some? {
      SameMeaningIff(xs[LastIndex(xs, k).value].value, ys[LastIndex(ys, k).value].value);
    }
  }

  lemma PairsMeaning(xs: seq<RawPair>, ys: seq<RawPair>)
    ensures SameMeaning(RawDict(xs), RawDict(ys)) <==> forall k :: KeyAlike(xs, ys, k)
  {
    var l, r := NormalizePairs(xs), NormalizePairs(ys);
    SameMeaningIff(RawDict(xs), RawDict(ys));
    forall k ensures KeyAlike(xs, ys, k) <==> (k in l <==> k in r) && (k in l && k in r ==> l[k] == r[k]) {
      KeyAlikeIff(xs, ys, k);
    }
    if forall k :: KeyAlike(xs, ys, k) {
      forall k ensures (k in l <==> k in r) && (k in l && k in r ==> l[k] == r[k]) { assert KeyAlike(xs, ys, k); }
      assert l.Keys == r.Keys;
      assert l == r;
    }
  }

  function Plain(j: Json): Raw
    decreases j, 0
  {
    match j
    case Null => RawNull
    case Bool(b) => RawBool(b)
    case Num(n) => RawNum(n)
    case Str(s) => RawStr(s)
    case List(items) => RawSeq(seq(|items|, i requires 0 <= i < |items| => Plain(items[i])))
    case Dict(entries) => RawDict(PlainPairs(j, SortedKeys(entries.Keys)))
  }

  function PlainPairs(j: Json, ks: seq<string>): (r: seq<RawPair>)
    requires j.Dict? && forall i :: 0 <= i < |ks| ==> ks[i] in j.entries
    ensures |r| == |ks|
    decreases j, 0, |ks|
  {
    if ks == [] then []
    else PlainPairs(j, ks[..|ks| - 1]) + [RawPair(ks[|ks| - 1], Plain(j.entries[ks[|ks| - 1]]))]
  }

  /** Plain data passes through, so normalizing twice is normalizing once. */
  lemma {:induction false} NormalizePlain(j: Json)
    ensures Normalize(Plain(j)) == j
    decreases j, 0
  {
    match j {
      case List(items) =>
        forall i | 0 <= i < |items| ensures Normalize(Plain(items[i])) == items[i] {
          NormalizePlain(items[i]);
        }
        assert Normalize(Plain(j)).items == items;
      case Dict(entries) =>
        NormalizePlainPairs(j, SortedKeys(entries.Keys));
        SameMap(NormalizePairs(PlainPairs(j, SortedKeys(entries.Keys))), j, SortedKeys(entries.Keys));
      case _ =>
    }
  }

  lemma SameMap(m: map<string, Json>, j: Json, ks: seq<string>)
    requires j.Dict? && forall k :: k in ks <==> k in j.entries
    requires forall k :: (k in m <==> k in ks) && (k in m ==> k in j.entries && m[k] == j.entries[k])
    ensures m == j.entries
  {
    assert m.Keys == j.entries.Keys;
  }

  lemma {:induction false} NormalizePlainPairs(j: Json, ks: seq<string>)
    requires j.Dict? && forall i :: 0 <= i < |ks| ==> ks[i] in j.entries
    ensures var m := NormalizePairs(PlainPairs(j, ks));
            forall k :: (k in m <==> k in ks) && (k in m ==> m[k] == j.entries[k])
    decreases j, 0, |ks|
  {
    if ks != [] {
      var init, k := ks[..|ks| - 1], ks[|ks| - 1];
      NormalizePlain(j.entries[k]);
      NormalizePlainPairs(j, init);
      assert PlainPairs(j, ks)[..|ks| - 1] == PlainPairs(j, init);
      assert ks == init + [k];
    }
  }

  // ----- the program -----

  method DiffValue(before: Json, after: Json, path: Path) returns (r: Entry)
    ensures r == Diff(before, after, path)
    decreases before, 1
  {
    if before.Dict? && after.Dict? {
      r := DiffDicts(before, after, SortedKeys(before.entries.Keys + after.entries.Keys), path);
    } else if before.List? && after.List? {
      r := DiffLists(before, after, path);
    } else {
      r := Entry(path, if before == after then UNCHANGED else CHANGED, before, after, []);
    }
  }

  /** The loop over the sorted keys. */
  method DiffDicts(before: Json, after: Json, ks: seq<string>, path: Path) returns (r: Entry)
    requires before.Dict? && after.Dict?
    requires forall i :: 0 <= i < |ks| ==> ks[i] in before.entries || ks[i] in after.entries
    ensures r == ContainerEntry(path, before, after, KeyChildren(before, after, ks, path))
    decreases before, 0
  {
    var children: seq<Entry> := [];
    for n := 0 to |ks|
      invariant |children| == n
      invariant forall i :: 0 <= i < n ==> children[i] == KeyChild(before, after, ks[i], path)
    {
      var key, child := ks[n], Removed(path, Null);
      if key in before.entries && key in after.entries {
        child := DiffValue(before.entries[key], after.entries[key], path + [Key(key)]);
      } else if key in after.entries {
        child := Added(path + [Key(key)], after.entries[key]);
      } else {
        child := Removed(path + [Key(key)], before.entries[key]);
      }
      children := children + [child];
    }
    assert children == KeyChildren(before, after, ks, path);
    r := ContainerEntry(path, before, after, children);
  }

  /** The loop over the indices. */
  method DiffLists(before: Json, after: Json, path: Path) returns (r: Entry)
    requires before.List? && after.List?
    ensures r == ContainerEntry(path, before, after, ItemChildren(before, after, path))
    decreases before, 0
  {
    var children: seq<Entry> := [];
    for n := 0 to Longer(|before.items|, |after.items|)
      invariant |children| == n
      invariant forall i :: 0 <= i < n ==> children[i] == ItemChild(before, after, i, path)
    {
      var child := Removed(path, Null);
      if n < |before.items| && n < |after.items| {
        child := DiffValue(before.items[n], after.items[n], path + [Index(n)]);
      } else if n < |after.items| {
        child := Added(path + [Index(n)], after.items[n]);
      } else {
        child := Removed(path + [Index(n)], before.items[n]);
      }
      children := children + [child];
    }
    assert children == ItemChildren(before, after, path);
    r := ContainerEntry(path, before, after, children);
  }

  /** The list `changes()` fills. */
  class LeafList {
    var items: seq<Entry>

    constructor ()
      ensures items == []
    {
      items := [];
    }

    method Append(e: Entry)
      modifies this
      ensures items == old(items) + [e]
    {
      items := items + [e];
    }
  }

  lemma {:induction false} LeavesAllSnoc(es: seq<Entry>, e: Entry)
    ensures LeavesAll(es + [e]) == LeavesAll(es) + Leaves(e)
    decreases |es|
  {
    if es == [] {
      assert [e][1..] == [];
    } else {
      assert (es + [e])[1..] == es[1..] + [e];
      LeavesAllSnoc(es[1..], e);
    }
  }

  method CollectLeafChanges(entry: Entry, out: LeafList)
    modifies out
    ensures out.items == old(out.items) + Leaves(entry)
    decreases entry
  {
    if entry.change == UNCHANGED {
      return;
    }
    if entry.children != [] {
      var before := out.items;
      for n := 0 to |entry.children|
        invariant out.items == before + LeavesAll(entry.children[..n])
      {
        CollectLeafChanges(entry.children[n], out);
        LeavesAllSnoc(entry.children[..n], entry.children[n]);
        assert entry.children[..n + 1] == entry.children[..n] + [entry.children[n]];
      }
      assert entry.children[..|entry.children|] == entry.children;
    } else {
      out.Append(entry);
    }
  }

  /** One version of a logical case. */
  datatype Version = Version(project: nat, lineage: nat, version: nat, fields: map<string, Raw>)

  ghost predicate IsVersion(v: Version) {
    v.fields.Keys == set f | f in FIELDS
  }

  function Content(v: Version): map<string, Json> {
    NormalizeAll(v.fields)
  }

  datatype DiffResult = Incomparable | Comparison(versionA: nat, versionB: nat, fields: seq<Entry>)

  /** The entry of field `f`: what the two versions mean by it, UNCHANGED iff they mean the same. */
  ghost predicate ComparesField(x: Raw, y: Raw, f: string, e: Entry) {
    && e.path == [Key(f)]
    && ReadsAs(x, e.before) && ReadsAs(y, e.after)
    && e.change == (if SameMeaning(x, y) then UNCHANGED else CHANGED)
  }

  lemma FieldCompares(x: Raw, y: Raw, f: string)
    ensures ComparesField(x, y, f, Diff(Normalize(x), Normalize(y), [Key(f)]))
  {
    UnchangedIffEqual(Normalize(x), Normalize(y), [Key(f)]);
    SameMeaningIff(x, y);
    NormalizeReads(x);
    NormalizeReads(y);
  }

  /** One entry per compared field, in the fixed order. */
  ghost predicate ComparesContent(a: Version, b: Version, fields: seq<Entry>) {
    |fields| == |FIELDS| &&
    forall i :: 0 <= i < |FIELDS| ==>
      FIELDS[i] in a.fields && FIELDS[i] in b.fields &&
      ComparesField(a.fields[FIELDS[i]], b.fields[FIELDS[i]], FIELDS[i], fields[i])
  }

  lemma FieldEntry(a: Version, b: Version, f: string)
    requires f in a.fields && f in b.fields
    ensures f in Content(a) && f in Content(b)
    ensures KeyChild(Dict(Content(a)), Dict(Content(b)), f, []) ==
            Diff(Normalize(a.fields[f]), Normalize(b.fields[f]), [Key(f)])
  {
    assert Content(a)[f] == Normalize(a.fields[f]) && Content(b)[f] == Normalize(b.fields[f]);
    assert [] + [Key(f)] == [Key(f)];
  }

  lemma FieldsCompare(a: Version, b: Version)
    requires IsVersion(a) && IsVersion(b)
    ensures ComparesContent(a, b, Fields(Content(a), Content(b)))
  {
    var fields := Fields(Content(a), Content(b));
    forall i | 0 <= i < |FIELDS|
      ensures FIELDS[i] in a.fields && FIELDS[i] in b.fields
      ensures ComparesField(a.fields[FIELDS[i]], b.fields[FIELDS[i]], FIELDS[i], fields[i])
    {
      var f := FIELDS[i];
      assert f in a.fields && f in b.fields;
      FieldEntry(a, b, f);
      assert fields[i] == KeyChild(Dict(Content(a)), Dict(Content(b)), f, []);
      FieldCompares(a.fields[f], b.fields[f], f);
    }
  }

  method DiffVersions(a: Version, b: Version, requireSameLineage: bool) returns (r: DiffResult)
    requires IsVersion(a) && IsVersion(b)
    ensures r.Incomparable? <==> requireSameLineage && (a.project != b.project || a.lineage != b.lineage)
    ensures r.Comparison? ==> r == Comparison(a.version, b.version, Fields(Content(a), Content(b)))
    ensures r.Comparison? ==> ComparesContent(a, b, r.fields)
  {
    if requireSameLineage && (a.project != b.project || a.lineage != b.lineage) {
      return Incomparable;
    }
    FieldsCover(Content(a), Content(b));
    FieldsCompare(a, b);
    var fields := DiffFields(FIELDS, a.fields, b.fields);
    r := Comparison(a.version, b.version, fields);
  }

  function NormalizeAll(fields: map<string, Raw>): map<string, Json> {
    map f | f in fields :: Normalize(fields[f])
  }

  method DiffFields(names: seq<string>, a: map<string, Raw>, b: map<string, Raw>) returns (r: seq<Entry>)
    requires forall i :: 0 <= i < |names| ==> names[i] in a && names[i] in b
    ensures r == KeyChildren(Dict(NormalizeAll(a)), Dict(NormalizeAll(b)), names, [])
  {
    r := [];
    for n := 0 to |names|
      invariant |r| == n
      invariant forall i :: 0 <= i < n ==>
                  r[i] == KeyChild(Dict(NormalizeAll(a)), Dict(NormalizeAll(b)), names[i], [])
    {
      var field := DiffValue(Normalize(a[names[n]]), Normalize(b[names[n]]), [] + [Key(names[n])]);
      r := r + [field];
    }
  }

  method ChangesOf(fields: seq<Entry>) returns (r: seq<Entry>)
    ensures r == LeavesAll(fields)
  {
    var out := new LeafList();
    for n := 0 to |fields|
      invariant fresh(out)
      invariant out.items == LeavesAll(fields[..n])
    {
      CollectLeafChanges(fields[n], out);
      LeavesAllSnoc(fields[..n], fields[n]);
      assert fields[..n + 1] == fields[..n] + [fields[n]];
    }
    assert fields[..|fields|] == fields;
    r := out.items;
  }
}
