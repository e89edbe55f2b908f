/**
 * The service table: the search filter (`filter_services`), the Treeview
 * that shows the rows, and the reconciliation that `update_treeview` does
 * on it in place (update rows whose ID is still listed, append new IDs,
 * delete vanished ones).
 */
module Table {
  import opened Py
  import opened Collectors

  // ------------------------------------------------------------ filter

  /** The query `filter_services` searches for: lower-cased, and empty when it is the placeholder. */
  function EffectiveQuery(query: string, placeholder: string): string
  {
    if Lower(query) == Lower(placeholder) then "" else Lower(query)
  }

  /** `q in svc['App Name'].lower()`, for a name that is a string. */
  predicate NameMatches(s: Service, q: string)
    requires s.name.SStr?
  {
    Contains(Lower(s.name.s), q)
  }

  /** `b` keeps some of the elements of `a`, in their order. */
  predicate Subsequence<T(==)>(b: seq<T>, a: seq<T>)
    decreases |a|
  {
    || b == []
    || (a != [] && ((a[0] == b[0] && Subsequence(b[1..], a[1..])) || Subsequence(b, a[1..])))
  }

  /**
   * The comprehension of `filter_services`: the services whose lower-cased
   * name contains `q`, in order; None when a name is not a string
   * (`.lower()` raises AttributeError, which nothing catches).
   */
  function SelectByName(all: seq<Service>, q: string): (r: Option<seq<Service>>)
    ensures r.None? <==> exists i :: 0 <= i < |all| && !all[i].name.SStr?
    ensures r.Some? ==> Subsequence(r.value, all)
    ensures r.Some? ==> forall s :: s in r.value <==> s in all && NameMatches(s, q)
    ensures r.Some? ==> forall s :: s in all ==> multiset(r.value)[s] == if NameMatches(s, q) then multiset(all)[s] else 0
  {
    if all == [] then Some([])
    else if !all[0].name.SStr? then None
    else
      match SelectByName(all[1..], q)
      case None => None
      case Some(rest) =>
        assert all == [all[0]] + all[1..];
        assert forall s :: s in all <==> s == all[0] || s in all[1..];
        assert multiset(all) == multiset([all[0]]) + multiset(all[1..]);
        if NameMatches(all[0], q) then Some([all[0]] + rest) else Some(rest)
  }

  /**
   * `filter_services`: every service, in order, when the effective query is
   * empty; otherwise exactly those whose name contains it, in order.
   */
  function FilterServices(all: seq<Service>, query: string, placeholder: string): (r: Option<seq<Service>>)
    ensures EffectiveQuery(query, placeholder) == "" ==> r == Some(all)
    ensures EffectiveQuery(query, placeholder) != "" ==> r == SelectByName(all, EffectiveQuery(query, placeholder))
  {
    var q := EffectiveQuery(query, placeholder);
    if q == "" then Some(all) else SelectByName(all, q)
  }

  // ------------------------------------------------------------ rows

  /** The values tuple of one row, in the column order of the table. */
  datatype RowValues = RowValues(
    id: Scalar, name: Scalar, version: Scalar, port: Scalar, status: Scalar,
    cpu: Scalar, memory: Scalar, uptime: string)

  /** A Treeview item: its iid (the service ID it was inserted with) and its values. */
  datatype Row = Row(iid: Scalar, values: RowValues)

  function ValuesOf(s: Service): (v: RowValues)
    ensures v.id == s.id && v.name == s.name && v.uptime == s.uptime
  {
    RowValues(s.id, s.name, s.version, s.port, s.status, s.cpu, s.memory, s.uptime)
  }

  /** The row `update_treeview` shows for a service. */
  function RowOf(s: Service): Row { Row(s.id, ValuesOf(s)) }

  /** The IDs of a service list, in order. */
  function Ids(f: seq<Service>): (r: seq<Scalar>)
    ensures |r| == |f| && forall i :: 0 <= i < |f| ==> r[i] == f[i].id
  {
    seq(|f|, i requires 0 <= i < |f| => f[i].id)
  }

  /** The iids of the rows, top to bottom. */
  function Iids(rows: seq<Row>): (r: seq<Scalar>)
    ensures |r| == |rows| && forall i :: 0 <= i < |rows| ==> r[i] == rows[i].iid
  {
    seq(|rows|, i requires 0 <= i < |rows| => rows[i].iid)
  }

  predicate NoDup<T(==)>(s: seq<T>) { forall i, j :: 0 <= i < j < |s| ==> s[i] != s[j] }

  lemma NoDupCons<T>(x: T, s: seq<T>)
    ensures NoDup([x] + s) <==> x !in s && NoDup(s)
  {
    var t := [x] + s;
    if x !in s && NoDup(s) {
      forall i, j | 0 <= i < j < |t| ensures t[i] != t[j] {
        assert t[j] == s[j - 1];
        if i > 0 { assert t[i] == s[i - 1]; }
      }
    }
    if NoDup(t) {
      forall i, j | 0 <= i < j < |s| ensures s[i] != s[j] {
        assert s[i] == t[i + 1] && s[j] == t[j + 1];
      }
      forall k | 0 <= k < |s| ensures s[k] != x {
        assert s[k] == t[k + 1] && x == t[0];
      }
    }
  }

  lemma IdsConcat(a: seq<Service>, b: seq<Service>)
    ensures Ids(a + b) == Ids(a) + Ids(b)
  {
    assert |Ids(a + b)| == |Ids(a) + Ids(b)|;
    forall i | 0 <= i < |a + b| ensures Ids(a + b)[i] == (Ids(a) + Ids(b))[i] {
      if i < |a| { assert (a + b)[i] == a[i]; } else { assert (a + b)[i] == b[i - |a|]; }
    }
  }

  lemma IidsConcat(a: seq<Row>, b: seq<Row>)
    ensures Iids(a + b) == Iids(a) + Iids(b)
  {
    assert |Iids(a + b)| == |Iids(a) + Iids(b)|;
    forall i | 0 <= i < |a + b| ensures Iids(a + b)[i] == (Iids(a) + Iids(b))[i] {
      if i < |a| { assert (a + b)[i] == a[i]; } else { assert (a + b)[i] == b[i - |a|]; }
    }
  }

  /** The IDs of the first `i + 1` services are those of the first `i` and then `f[i]`'s. */
  lemma IdsPrefixSnoc(f: seq<Service>, i: nat)
    requires i < |f|
    ensures f[..i + 1] == f[..i] + [f[i]]
    ensures Ids(f[..i + 1]) == Ids(f[..i]) + [f[i].id]
  {
    assert f[..i + 1] == f[..i] + [f[i]];
    IdsConcat(f[..i], [f[i]]);
  }

  /** The last service of `f` with ID `x`: the one whose values a row ends up showing. */
  function LastWith(f: seq<Service>, x: Scalar): (s: Service)
    requires x in Ids(f)
    ensures s in f && s.id == x
    decreases |f|
  {
    var n := |f| - 1;
    if f[n].id == x then f[n]
    else
      IdsPrefixSnoc(f, n);
      assert f[..n + 1] == f;
      LastWith(f[..n], x)
  }

  // ------------------------------------------------------------ the Treeview widget

  /** `tree.item(iid, values=v)`: the row with that iid gets the values. */
  function SetRow(rows: seq<Row>, x: Scalar, v: RowValues): (r: seq<Row>)
    ensures |r| == |rows| && Iids(r) == Iids(rows)
    ensures forall i :: 0 <= i < |rows| ==> r[i] == if rows[i].iid == x then Row(x, v) else rows[i]
  {
    seq(|rows|, i requires 0 <= i < |rows| => if rows[i].iid == x then Row(x, v) else rows[i])
  }

  /** `tree.delete(iid)`: the rows without that iid, in order. */
  function Without(rows: seq<Row>, x: Scalar): (r: seq<Row>)
    ensures forall y :: y in Iids(r) <==> y in Iids(rows) && y != x
    ensures Subsequence(r, rows)
  {
    if rows == [] then []
    else
      var rest := Without(rows[1..], x);
      IidsConcat([rows[0]], rows[1..]);
      assert [rows[0]] + rows[1..] == rows;
      if rows[0].iid == x then rest
      else
        IidsConcat([rows[0]], rest);
        [rows[0]] + rest
  }

  /** The items of a ttk Treeview, top to bottom. Tk keeps iids unique. */
  class Treeview {
    var rows: seq<Row>

    ghost predicate Valid()
      reads this
    {
      NoDup(Iids(rows))
    }

    constructor ()
      ensures Valid() && rows == []
    {
      rows := [];
    }

    /** `tree.insert('', 'end', iid=x, values=v)`; Tk refuses (raises TclError) an iid already in use. */
    method Insert(x: Scalar, v: RowValues) returns (ok: bool)
      requires Valid()
      modifies this
      ensures Valid()
      ensures ok <==> x !in Iids(old(rows))
      ensures rows == if ok then old(rows) + [Row(x, v)] else old(rows)
    {
      ok := x !in Iids(rows);
      if ok {
        IidsConcat(rows, [Row(x, v)]);
        rows := rows + [Row(x, v)];
      }
    }

    /** `tree.item(x, values=v)` on an existing item. */
    method SetValues(x: Scalar, v: RowValues)
      requires Valid() && x in Iids(rows)
      modifies this
      ensures Valid()
      ensures rows == SetRow(old(rows), x, v)
    {
      rows := SetRow(rows, x, v);
    }

    /** `tree.delete(x)`. */
    method Delete(x: Scalar)
      requires Valid()
      modifies this
      ensures Valid()
      ensures rows == Without(old(rows), x)
    {
      SubsequenceNoDup(Without(rows, x), rows);
      rows := Without(rows, x);
    }
  }

  /** A subsequence of rows with distinct iids has distinct iids. */
  lemma {:induction false} SubsequenceNoDup(b: seq<Row>, a: seq<Row>)
    requires Subsequence(b, a) && NoDup(Iids(a))
    ensures NoDup(Iids(b)) && forall y :: y in Iids(b) ==> y in Iids(a)
    decreases |a|
  {
    if b != [] {
      IidsConcat([a[0]], a[1..]);
      assert [a[0]] + a[1..] == a;
      if a[0] == b[0] && Subsequence(b[1..], a[1..]) {
        SubsequenceNoDup(b[1..], a[1..]);
        IidsConcat([b[0]], b[1..]);
        assert [b[0]] + b[1..] == b;
        NoDupCons(a[0].iid, Iids(a[1..]));
        NoDupCons(b[0].iid, Iids(b[1..]));
      } else {
        NoDupCons(a[0].iid, Iids(a[1..]));
        SubsequenceNoDup(b, a[1..]);
      }
    }
  }

  // ------------------------------------------------------------ reconciliation, declaratively

  /** A row after the updating pass over `p`: refreshed from the last service with its ID. */
  function PatchRow(r: Row, p: seq<Service>): Row
  {
    if r.iid in Ids(p) then RowOf(LastWith(p, r.iid)) else r
  }

  /** The rows on screen after the updating pass over `p`: the same items in the same order. */
  function Patched(rows: seq<Row>, p: seq<Service>): (r: seq<Row>)
    ensures |r| == |rows| && Iids(r) == Iids(rows)
    ensures forall i :: 0 <= i < |rows| ==> r[i] == PatchRow(rows[i], p)
  {
    seq(|rows|, i requires 0 <= i < |rows| => PatchRow(rows[i], p))
  }

  /** The rows inserted for `p`: one per service whose ID was not on screen, in the order of `p`. */
  function Added(before: seq<Row>, p: seq<Service>): seq<Row>
    decreases |p|
  {
    if p == [] then []
    else
      var n := |p| - 1;
      Added(before, p[..n]) + (if p[n].id in Iids(before) then [] else [RowOf(p[n])])
  }

  /** The added rows carry exactly the IDs of `p` that were not on screen. */
  lemma {:induction false} AddedIids(before: seq<Row>, p: seq<Service>)
    ensures forall x :: x in Iids(Added(before, p)) <==> x in Ids(p) && x !in Iids(before)
    decreases |p|
  {
    if p != [] {
      var n := |p| - 1;
      var s, a := p[n], Added(before, p[..n]);
      var tail := if s.id in Iids(before) then [] else [RowOf(s)];
      AddedIids(before, p[..n]);
      IdsPrefixSnoc(p, n);
      assert p[..n + 1] == p;
      IidsConcat(a, tail);
      assert Iids(tail) == if s.id in Iids(before) then [] else [s.id];
    }
  }

  /** The rows whose ID is still listed in `f`, in their order. */
  function Surviving(rows: seq<Row>, f: seq<Service>): seq<Row>
  {
    if rows == [] then []
    else
      var rest := Surviving(rows[1..], f);
      if rows[0].iid in Ids(f) then [rows[0]] + rest else rest
  }

  /** The surviving rows are some of the rows, in order, and carry exactly the listed ones of their IDs. */
  lemma {:induction false} SurvivingKeeps(rows: seq<Row>, f: seq<Service>)
    ensures var r := Surviving(rows, f);
      && (forall x :: x in Iids(r) <==> x in Iids(rows) && x in Ids(f))
      && Subsequence(r, rows)
  {
    if rows != [] {
      var rest := Surviving(rows[1..], f);
      SurvivingKeeps(rows[1..], f);
      IidsConcat([rows[0]], rows[1..]);
      assert [rows[0]] + rows[1..] == rows;
      if rows[0].iid in Ids(f) {
        IidsConcat([rows[0]], rest);
        assert ([rows[0]] + rest)[1..] == rest;
      }
    }
  }

  /** What `update_treeview` is meant to produce: survivors refreshed in place, then the new IDs appended. */
  function Reconcile(before: seq<Row>, f: seq<Service>): seq<Row>
  {
    Surviving(Patched(before, f), f) + Added(before, f)
  }

  /**
   * `f[k]` brings an ID that was not on screen but was already inserted
   * earlier in the same pass, so `tree.insert` raises there.
   */
  predicate CollidesAt(before: seq<Row>, f: seq<Service>, k: nat)
    requires k < |f|
  {
    f[k].id !in Iids(before) && f[k].id in Ids(f[..k])
  }

  /** The first position at or after `from` where inserting raises. */
  function FirstCollision(before: seq<Row>, f: seq<Service>, from: nat): (r: Option<nat>)
    ensures r.Some? ==> from <= r.value < |f| && CollidesAt(before, f, r.value)
    ensures r.Some? ==> forall k :: from <= k < r.value ==> !CollidesAt(before, f, k)
    ensures r.None? ==> forall k :: from <= k < |f| ==> !CollidesAt(before, f, k)
    decreases |f| - from
  {
    if from >= |f| then None
    else if CollidesAt(before, f, from) then Some(from)
    else FirstCollision(before, f, from + 1)
  }

  /** The rows after the first `i` steps of the updating pass. */
  function PassState(before: seq<Row>, f: seq<Service>, i: nat): seq<Row>
    requires i <= |f|
  {
    Patched(before, f[..i]) + Added(before, f[..i])
  }

  /**
   * The rows after `update_treeview`: the reconciliation when no insertion
   * raises; otherwise the exception (caught and printed) leaves the rows as
   * the pass had left them, with nothing deleted.
   */
  function AfterUpdate(before: seq<Row>, f: seq<Service>): seq<Row>
  {
    match FirstCollision(before, f, 0)
    case None => Reconcile(before, f)
    case Some(k) => PassState(before, f, k)
  }

  /** The rows after the first `j` steps of the deleting pass. */
  function DeleteState(patched: seq<Row>, f: seq<Service>, added: seq<Row>, j: nat): seq<Row>
    requires j <= |patched|
  {
    Surviving(patched[..j], f) + patched[j..] + added
  }

  // ------------------------------------------------------------ update_treeview

  /**
   * `update_treeview`: one pass over the filtered services that refreshes the
   * rows whose ID is on screen and appends the others, then, unless an
   * insertion raised, one pass over the rows that were on screen that deletes
   * those whose ID is no longer listed.
   */
  method UpdateTreeview(tree: Treeview, filtered: seq<Service>)
    requires tree.Valid()
    modifies tree
    ensures tree.Valid()
    ensures tree.rows == AfterUpdate(old(tree.rows), filtered)
  {
    var before := tree.rows;
    var completed, newIds := UpdatePass(tree, filtered);
    if completed {
      DeletePass(tree, before, filtered, newIds);
    }
  }

  /**
   * The first loop of `update_treeview`, with `new_ids` as its result.
   * `completed` is false when `tree.insert` raised.
   */
  method UpdatePass(tree: Treeview, filtered: seq<Service>) returns (completed: bool, newIds: set<Scalar>)
    requires tree.Valid()
    modifies tree
    ensures tree.Valid()
    ensures completed <==> FirstCollision(old(tree.rows), filtered, 0).None?
    ensures completed ==> tree.rows == PassState(old(tree.rows), filtered, |filtered|)
    ensures completed ==> forall x :: x in newIds <==> x in Ids(filtered)
    ensures !completed ==> tree.rows == AfterUpdate(old(tree.rows), filtered)
  {
    var before := tree.rows;
    newIds := {};
    var i := 0;
    assert tree.rows == PassState(before, filtered, 0) by {
      assert filtered[..0] == [];
      assert Patched(before, []) == before;
    }
    while i < |filtered|
      invariant 0 <= i <= |filtered|
      invariant tree.Valid()
      invariant FirstCollision(before, filtered, 0) == FirstCollision(before, filtered, i)
      invariant forall x :: x in newIds <==> x in Ids(filtered[..i])
      invariant tree.rows == PassState(before, filtered, i)
    {
      NewIdsStep(newIds, filtered, i);
      newIds := newIds + {filtered[i].id};
      var ok := UpdateOne(tree, before, filtered, i);
      if !ok {
        return false, newIds;
      }
      i := i + 1;
    }
    assert filtered[..i] == filtered;
    return true, newIds;
  }

  /**
   * One turn of the first loop: refresh the row of a service whose ID was on
   * screen, insert the others; `ok` is false when the insertion raised.
   */
  method UpdateOne(tree: Treeview, before: seq<Row>, f: seq<Service>, i: nat) returns (ok: bool)
    requires tree.Valid() && i < |f| && tree.rows == PassState(before, f, i)
    modifies tree
    ensures tree.Valid()
    ensures ok ==> tree.rows == PassState(before, f, i + 1) && FirstCollision(before, f, i) == FirstCollision(before, f, i + 1)
    ensures !ok ==> tree.rows == old(tree.rows) && FirstCollision(before, f, i) == Some(i)
  {
    var svc := f[i];
    if svc.id in Iids(before) {
      UpdateStep(before, f, i);
      tree.SetValues(svc.id, ValuesOf(svc));
      ok := true;
    } else {
      ok := tree.Insert(svc.id, ValuesOf(svc));
      if ok {
        InsertStep(before, f, i);
      } else {
        InsertFails(before, f, i);
      }
    }
  }

  /** The second loop of `update_treeview`: delete the rows that were on screen and are no longer listed. */
  method DeletePass(tree: Treeview, before: seq<Row>, filtered: seq<Service>, newIds: set<Scalar>)
    requires tree.Valid() && NoDup(Iids(before))
    requires tree.rows == PassState(before, filtered, |filtered|)
    requires forall x :: x in newIds <==> x in Ids(filtered)
    modifies tree
    ensures tree.Valid()
    ensures tree.rows == Reconcile(before, filtered)
  {
    var patched, added := Patched(before, filtered), Added(before, filtered);
    DeleteStart(before, filtered);
    AddedIids(before, filtered);
    DeleteLoop(tree, before, patched, filtered, added, newIds);
    DeleteEnd(patched, filtered, added);
  }

  /** The deleting pass starts from the end of the updating pass. */
  lemma DeleteStart(before: seq<Row>, f: seq<Service>)
    ensures PassState(before, f, |f|) == DeleteState(Patched(before, f), f, Added(before, f), 0)
  {
    var patched, added := Patched(before, f), Added(before, f);
    assert f[..|f|] == f;
    assert PassState(before, f, |f|) == patched + added;
    assert patched[..0] == [] && patched[0..] == patched;
    assert Surviving([], f) == [];
  }

  /** After the last row the deleting pass has reached the reconciled screen. */
  lemma DeleteEnd(patched: seq<Row>, f: seq<Service>, added: seq<Row>)
    ensures DeleteState(patched, f, added, |patched|) == Surviving(patched, f) + added
  {
    assert patched[..|patched|] == patched && patched[|patched|..] == [];
  }

  /** The loop of the deleting pass, over the IDs of the rows that were on screen. */
  method DeleteLoop(tree: Treeview, before: seq<Row>, patched: seq<Row>, f: seq<Service>, added: seq<Row>, newIds: set<Scalar>)
    requires tree.Valid() && NoDup(Iids(patched)) && Iids(patched) == Iids(before)
    requires forall y :: y in Iids(added) ==> y in Ids(f)
    requires forall y :: y in newIds <==> y in Ids(f)
    requires tree.rows == DeleteState(patched, f, added, 0)
    modifies tree
    ensures tree.Valid()
    ensures tree.rows == DeleteState(patched, f, added, |patched|)
  {
    var j := 0;
    while j < |before|
      invariant 0 <= j <= |before| == |patched|
      invariant tree.Valid()
      invariant tree.rows == DeleteState(patched, f, added, j)
    {
      assert Iids(before)[j] == before[j].iid && Iids(patched)[j] == patched[j].iid;
      DeleteOne(tree, patched, f, added, newIds, before[j].iid, j);
      j := j + 1;
    }
  }

  /** One turn of the second loop: delete the row with ID `x` unless `x` is in `new_ids`. */
  method DeleteOne(tree: Treeview, patched: seq<Row>, f: seq<Service>, added: seq<Row>, newIds: set<Scalar>, x: Scalar, j: nat)
    requires tree.Valid() && j < |patched| && NoDup(Iids(patched)) && x == patched[j].iid
    requires forall y :: y in Iids(added) ==> y in Ids(f)
    requires forall y :: y in newIds <==> y in Ids(f)
    requires tree.rows == DeleteState(patched, f, added, j)
    modifies tree
    ensures tree.Valid()
    ensures tree.rows == DeleteState(patched, f, added, j + 1)
  {
    if x !in newIds {
      tree.Delete(x);
      DeleteStepGone(patched, f, added, j);
    } else {
      DeleteStepKept(patched, f, added, j);
    }
  }

  // ------------------------------------------------------------ lemmas for the two passes

  /** During the updating pass the screen holds the old IDs and those of the services seen so far. */
  lemma PassStateIids(before: seq<Row>, f: seq<Service>, i: nat)
    requires i <= |f|
    ensures forall x :: x in Iids(PassState(before, f, i)) <==> x in Iids(before) || x in Ids(f[..i])
  {
    AddedIids(before, f[..i]);
    IidsConcat(Patched(before, f[..i]), Added(before, f[..i]));
  }

  lemma LastWithSnoc(p: seq<Service>, s: Service, x: Scalar)
    requires x in Ids(p + [s])
    ensures x == s.id ==> LastWith(p + [s], x) == s
    ensures x != s.id ==> x in Ids(p) && LastWith(p + [s], x) == LastWith(p, x)
  {
    IdsConcat(p, [s]);
    assert (p + [s])[..|p|] == p;
  }

  /** Refreshing a row whose ID was on screen is one step of the updating pass. */
  lemma UpdateStep(before: seq<Row>, f: seq<Service>, i: nat)
    requires i < |f| && f[i].id in Iids(before)
    ensures f[i].id in Iids(PassState(before, f, i))
    ensures FirstCollision(before, f, i) == FirstCollision(before, f, i + 1)
    ensures SetRow(PassState(before, f, i), f[i].id, ValuesOf(f[i])) == PassState(before, f, i + 1)
  {
    PassStateIids(before, f, i);
    var p, s := f[..i], f[i];
    IdsPrefixSnoc(f, i);
    AddedSnoc(before, p, s);
    var a, b := Patched(before, p), Added(before, p);
    PatchedSnoc(before, p, s);
    AddedIids(before, p);
    SetRowConcat(a, b, s.id, ValuesOf(s));
  }

  /** `new_ids` grows by the ID of the service just handled. */
  lemma NewIdsStep(newIds: set<Scalar>, f: seq<Service>, i: nat)
    requires i < |f|
    requires forall x :: x in newIds <==> x in Ids(f[..i])
    ensures forall x :: x in newIds + {f[i].id} <==> x in Ids(f[..i + 1])
  {
    IdsPrefixSnoc(f, i);
  }

  /** The unfolding of `Added` by its last service. */
  lemma AddedSnoc(before: seq<Row>, p: seq<Service>, s: Service)
    ensures Added(before, p + [s]) == Added(before, p) + (if s.id in Iids(before) then [] else [RowOf(s)])
  {
    assert (p + [s])[..|p|] == p;
  }

  /** Patching by one more service refreshes exactly the rows with its ID. */
  lemma PatchedSnoc(before: seq<Row>, p: seq<Service>, s: Service)
    ensures Patched(before, p + [s]) == SetRow(Patched(before, p), s.id, ValuesOf(s))
  {
    var a, a' := Patched(before, p), Patched(before, p + [s]);
    var c := SetRow(a, s.id, ValuesOf(s));
    IdsConcat(p, [s]);
    assert Ids([s]) == [s.id];
    forall k | 0 <= k < |before| ensures a'[k] == c[k] {
      var r := before[k];
      assert a'[k] == PatchRow(r, p + [s]) && a[k] == PatchRow(r, p);
      assert c[k] == if a[k].iid == s.id then Row(s.id, ValuesOf(s)) else a[k];
      assert a[k].iid == r.iid by {
        if r.iid in Ids(p) { assert LastWith(p, r.iid).id == r.iid; }
      }
      if r.iid in Ids(p + [s]) {
        LastWithSnoc(p, s, r.iid);
      } else {
        assert r.iid !in Ids(p) && r.iid != s.id;
      }
    }
  }

  /** Refreshing rows with an ID none of `b` carries touches only `a`. */
  lemma SetRowConcat(a: seq<Row>, b: seq<Row>, x: Scalar, v: RowValues)
    requires x !in Iids(b)
    ensures SetRow(a + b, x, v) == SetRow(a, x, v) + b
  {
    var l, r := SetRow(a + b, x, v), SetRow(a, x, v) + b;
    forall k | 0 <= k < |l| ensures l[k] == r[k] {
      if k >= |a| {
        assert (a + b)[k] == b[k - |a|];
        assert Iids(b)[k - |a|] == b[k - |a|].iid;
      }
    }
  }

  /** An insertion that raises marks the first collision of the pass. */
  lemma InsertFails(before: seq<Row>, f: seq<Service>, i: nat)
    requires i < |f| && f[i].id !in Iids(before) && f[i].id in Iids(PassState(before, f, i))
    ensures FirstCollision(before, f, i) == Some(i)
  {
    PassStateIids(before, f, i);
  }

  /** Appending the row of a service whose ID is nowhere on screen is one step of the updating pass. */
  lemma InsertStep(before: seq<Row>, f: seq<Service>, i: nat)
    requires i < |f| && f[i].id !in Iids(PassState(before, f, i))
    ensures FirstCollision(before, f, i) == FirstCollision(before, f, i + 1)
    ensures PassState(before, f, i) + [RowOf(f[i])] == PassState(before, f, i + 1)
  {
    PassStateIids(before, f, i);
    var p, s := f[..i], f[i];
    IdsPrefixSnoc(f, i);
    AddedSnoc(before, p, s);
    PatchedSnoc(before, p, s);
    SetRowAbsent(Patched(before, p), s.id, ValuesOf(s));
  }

  /** Refreshing an ID no row carries changes nothing. */
  lemma SetRowAbsent(rows: seq<Row>, x: Scalar, v: RowValues)
    requires x !in Iids(rows)
    ensures SetRow(rows, x, v) == rows
  {
    forall k | 0 <= k < |rows| ensures rows[k].iid != x {
      assert Iids(rows)[k] == rows[k].iid;
    }
  }

  /** One step of the deleting pass on a row whose ID is still listed: it stays. */
  lemma DeleteStepKept(patched: seq<Row>, f: seq<Service>, added: seq<Row>, j: nat)
    requires j < |patched| && patched[j].iid in Ids(f)
    ensures DeleteState(patched, f, added, j) == DeleteState(patched, f, added, j + 1)
  {
    var a := Surviving(patched[..j], f);
    SliceCons(patched, j);
    SurvivingStep(patched, f, j);
    SurvivingSingle(patched[j], f);
    assert DeleteState(patched, f, added, j) == a + ([patched[j]] + patched[j + 1..]) + added;
    assert DeleteState(patched, f, added, j + 1) == (a + [patched[j]]) + patched[j + 1..] + added;
  }

  /** A single row survives exactly when its ID is listed. */
  lemma SurvivingSingle(r: Row, f: seq<Service>)
    ensures Surviving([r], f) == if r.iid in Ids(f) then [r] else []
  {
    assert [r][1..] == [];
  }

  lemma SliceCons<T>(s: seq<T>, j: nat)
    requires j < |s|
    ensures s[j..] == [s[j]] + s[j + 1..]
  {
  }

  /** One step of the deleting pass on a row whose ID is no longer listed: `tree.delete` removes it. */
  lemma DeleteStepGone(patched: seq<Row>, f: seq<Service>, added: seq<Row>, j: nat)
    requires j < |patched| && NoDup(Iids(patched)) && patched[j].iid !in Ids(f)
    requires forall x :: x in Iids(added) ==> x in Ids(f)
    ensures Without(DeleteState(patched, f, added, j), patched[j].iid) == DeleteState(patched, f, added, j + 1)
  {
    var x := patched[j].iid;
    var s := Surviving(patched[..j], f);
    SurvivingKeeps(patched[..j], f);
    SurvivingStep(patched, f, j);
    SurvivingSingle(patched[j], f);
    assert DeleteState(patched, f, added, j + 1) == s + patched[j + 1..] + added;
    calc {
      Without(s + patched[j..] + added, x);
      { WithoutConcat(s + patched[j..], added, x); }
      Without(s + patched[j..], x) + Without(added, x);
      { WithoutConcat(s, patched[j..], x); }
      Without(s, x) + Without(patched[j..], x) + Without(added, x);
      { WithoutAbsent(s, x); WithoutAbsent(added, x); WithoutHead(patched, j); }
      s + patched[j + 1..] + added;
    }
  }

  /** Deleting row `j`'s iid from the rows from `j` on leaves the rows after it. */
  lemma WithoutHead(rows: seq<Row>, j: nat)
    requires j < |rows| && NoDup(Iids(rows))
    ensures Without(rows[j..], rows[j].iid) == rows[j + 1..]
  {
    SliceCons(rows, j);
    WithoutConcat([rows[j]], rows[j + 1..], rows[j].iid);
    NotInRest(rows, j);
    WithoutAbsent(rows[j + 1..], rows[j].iid);
  }

  lemma SurvivingStep(rows: seq<Row>, f: seq<Service>, j: nat)
    requires j < |rows|
    ensures Surviving(rows[..j + 1], f) == Surviving(rows[..j], f) + Surviving([rows[j]], f)
  {
    assert rows[..j + 1] == rows[..j] + [rows[j]];
    SurvivingConcat(rows[..j], [rows[j]], f);
  }

  /** With distinct iids, the iid of row `j` does not occur after it. */
  lemma NotInRest(rows: seq<Row>, j: nat)
    requires j < |rows| && NoDup(Iids(rows))
    ensures rows[j].iid !in Iids(rows[j + 1..])
  {
    var t := rows[j + 1..];
    forall k | 0 <= k < |t| ensures t[k].iid != rows[j].iid {
      assert t[k] == rows[j + 1 + k];
      assert Iids(rows)[j + 1 + k] != Iids(rows)[j];
    }
  }

  lemma NoDupSuffix<T>(s: seq<T>, j: nat)
    requires NoDup(s) && j <= |s|
    ensures NoDup(s[j..])
  {
    forall a, b | 0 <= a < b < |s[j..]| ensures s[j..][a] != s[j..][b] {
      assert s[j..][a] == s[j + a] && s[j..][b] == s[j + b];
    }
  }

  lemma {:induction false} SurvivingConcat(a: seq<Row>, b: seq<Row>, f: seq<Service>)
    ensures Surviving(a + b, f) == Surviving(a, f) + Surviving(b, f)
  {
    if a != [] {
      assert (a + b)[1..] == a[1..] + b;
      SurvivingConcat(a[1..], b, f);
    } else {
      assert a + b == b;
    }
  }

  lemma {:induction false} WithoutAbsent(rows: seq<Row>, x: Scalar)
    requires x !in Iids(rows)
    ensures Without(rows, x) == rows
  {
    if rows != [] {
      IidsConcat([rows[0]], rows[1..]);
      assert [rows[0]] + rows[1..] == rows;
      WithoutAbsent(rows[1..], x);
    }
  }

  lemma {:induction false} WithoutConcat(a: seq<Row>, b: seq<Row>, x: Scalar)
    ensures Without(a + b, x) == Without(a, x) + Without(b, x)
  {
    if a != [] {
      assert (a + b)[1..] == a[1..] + b;
      WithoutConcat(a[1..], b, x);
    } else {
      assert a + b == b;
    }
  }

  // ------------------------------------------------------------ what the reconciliation shows

  /**
   * The screen shows the services `f`: one row per listed ID and no other,
   * each row holding the values of the last service with its ID.
   */
  ghost predicate Shows(rows: seq<Row>, f: seq<Service>)
  {
    && NoDup(Iids(rows))
    && (forall x :: x in Iids(rows) <==> x in Ids(f))
    && forall i :: 0 <= i < |rows| ==> rows[i].iid in Ids(f) && rows[i] == RowOf(LastWith(f, rows[i].iid))
  }

  /** After reconciling, the iids on screen are exactly the IDs of the filtered services. */
  lemma ReconcileIds(before: seq<Row>, f: seq<Service>)
    ensures forall x :: x in Iids(Reconcile(before, f)) <==> x in Ids(f)
  {
    SurvivingKeeps(Patched(before, f), f);
    AddedIids(before, f);
    IidsConcat(Surviving(Patched(before, f), f), Added(before, f));
  }

  /** Rows that stay keep their relative order; new rows follow them in the order of `f`. */
  lemma {:induction false} ReconcileOrder(before: seq<Row>, f: seq<Service>)
    ensures Subsequence(Iids(Surviving(Patched(before, f), f)), Iids(before))
    ensures Subsequence(Iids(Added(before, f)), Ids(f))
    ensures Reconcile(before, f) == Surviving(Patched(before, f), f) + Added(before, f)
  {
    SurvivingKeeps(Patched(before, f), f);
    SubsequenceIids(Surviving(Patched(before, f), f), Patched(before, f));
    AddedSubsequence(before, f);
  }

  lemma {:induction false} SubsequenceIids(b: seq<Row>, a: seq<Row>)
    requires Subsequence(b, a)
    ensures Subsequence(Iids(b), Iids(a))
    decreases |a|
  {
    if b != [] {
      assert Iids(a)[1..] == Iids(a[1..]);
      if a[0] == b[0] && Subsequence(b[1..], a[1..]) {
        assert Iids(b)[1..] == Iids(b[1..]);
        SubsequenceIids(b[1..], a[1..]);
      } else {
        SubsequenceIids(b, a[1..]);
      }
    }
  }

  lemma {:induction false} SubsequenceSnoc<T>(b: seq<T>, a: seq<T>, x: T)
    requires Subsequence(b, a)
    ensures Subsequence(b, a + [x]) && Subsequence(b + [x], a + [x])
    decreases |a|
  {
    if a == [] {
      assert b == [];
      assert ([] + [x])[1..] == [];
      assert [] + [x] == [x];
    } else {
      assert (a + [x])[1..] == a[1..] + [x];
      if b != [] && a[0] == b[0] && Subsequence(b[1..], a[1..]) {
        SubsequenceSnoc(b[1..], a[1..], x);
        assert (b + [x])[1..] == b[1..] + [x];
      } else if b != [] {
        SubsequenceSnoc(b, a[1..], x);
      } else {
        SubsequenceSnoc(b, a[1..], x);
        assert [] + [x] == [x];
        SubsequenceOne(a + [x], |a|);
      }
    }
  }

  lemma {:induction false} SubsequenceOne<T>(a: seq<T>, k: nat)
    requires k < |a|
    ensures Subsequence([a[k]], a)
    decreases k
  {
    if k > 0 {
      assert a[1..][k - 1] == a[k];
      SubsequenceOne(a[1..], k - 1);
    } else {
      assert [a[0]][1..] == [];
    }
  }

  lemma {:induction false} AddedSubsequence(before: seq<Row>, p: seq<Service>)
    ensures Subsequence(Iids(Added(before, p)), Ids(p))
    decreases |p|
  {
    if p == [] {
    } else {
      var n := |p| - 1;
      var q, s := p[..n], p[n];
      assert p[..n + 1] == p;
      IdsPrefixSnoc(p, n);
      AddedSubsequence(before, q);
      var a := Added(before, q);
      SubsequenceSnoc(Iids(a), Ids(q), s.id);
      var tail := if s.id in Iids(before) then [] else [RowOf(s)];
      IidsConcat(a, tail);
      if tail == [] {
        assert Iids(Added(before, p)) == Iids(a);
      } else {
        assert Iids(Added(before, p)) == Iids(a) + [s.id];
      }
    }
  }

  /** With distinct IDs the last service with an ID is the only one. */
  lemma {:induction false} LastWithUnique(f: seq<Service>, i: nat)
    requires i < |f| && NoDup(Ids(f))
    ensures f[i].id in Ids(f) && LastWith(f, f[i].id) == f[i]
    decreases |f|
  {
    var n := |f| - 1;
    assert Ids(f)[i] == f[i].id;
    if f[n].id != f[i].id {
      IdsPrefixSnoc(f, n);
      assert f[..n + 1] == f;
      assert NoDup(Ids(f[..n])) by {
        forall a, b | 0 <= a < b < n ensures Ids(f[..n])[a] != Ids(f[..n])[b] {
          assert Ids(f[..n])[a] == Ids(f)[a] && Ids(f[..n])[b] == Ids(f)[b];
        }
      }
      assert f[..n][i] == f[i];
      LastWithUnique(f[..n], i);
    } else {
      assert Ids(f)[n] == Ids(f)[i];
    }
  }

  lemma {:induction false} AddedRows(before: seq<Row>, p: seq<Service>)
    ensures forall r :: r in Added(before, p) ==> exists i :: 0 <= i < |p| && r == RowOf(p[i])
    decreases |p|
  {
    if p != [] {
      var n := |p| - 1;
      assert p[..n + 1] == p;
      AddedRows(before, p[..n]);
      forall r | r in Added(before, p[..n]) ensures exists i :: 0 <= i < |p| && r == RowOf(p[i]) {
        var i :| 0 <= i < n && r == RowOf(p[..n][i]);
        assert p[..n][i] == p[i];
      }
    }
  }

  lemma {:induction false} NoDupConcat<T>(a: seq<T>, b: seq<T>)
    requires NoDup(a) && NoDup(b) && forall x :: x in a ==> x !in b
    ensures NoDup(a + b)
  {
    var c := a + b;
    forall i, j | 0 <= i < j < |c| ensures c[i] != c[j] {
      if j < |a| {
        assert c[i] == a[i] && c[j] == a[j];
      } else if i >= |a| {
        assert c[i] == b[i - |a|] && c[j] == b[j - |a|];
      } else {
        assert c[i] == a[i] && c[j] == b[j - |a|];
        assert a[i] in a;
      }
    }
  }

  lemma {:induction false} AddedNoDup(before: seq<Row>, p: seq<Service>)
    requires NoDup(Ids(p))
    ensures NoDup(Iids(Added(before, p)))
    decreases |p|
  {
    if p != [] {
      var n := |p| - 1;
      var q, s := p[..n], p[n];
      assert p[..n + 1] == p;
      IdsPrefixSnoc(p, n);
      assert NoDup(Ids(q)) by {
        forall i, j | 0 <= i < j < |q| ensures Ids(q)[i] != Ids(q)[j] {
          assert Ids(q)[i] == Ids(p)[i] && Ids(q)[j] == Ids(p)[j];
        }
      }
      AddedNoDup(before, q);
      var a := Added(before, q);
      var tail := if s.id in Iids(before) then [] else [RowOf(s)];
      IidsConcat(a, tail);
      assert s.id !in Ids(q) by {
        forall k | 0 <= k < |q| ensures Ids(q)[k] != s.id {
          assert Ids(q)[k] == Ids(p)[k] && s.id == Ids(p)[n];
        }
      }
      AddedIids(before, q);
      NoDupConcat(Iids(a), Iids(tail));
    }
  }

  /** Reconciling an arbitrary screen with services of distinct IDs shows those services. */
  lemma ReconcileShows(before: seq<Row>, f: seq<Service>)
    requires NoDup(Iids(before)) && NoDup(Ids(f))
    ensures Shows(Reconcile(before, f), f)
  {
    var patched := Patched(before, f);
    var kept, added := Surviving(patched, f), Added(before, f);
    var r := kept + added;
    SurvivingKeeps(patched, f);
    SubsequenceNoDup(kept, patched);
    AddedNoDup(before, f);
    AddedIids(before, f);
    IidsConcat(kept, added);
    NoDupConcat(Iids(kept), Iids(added));
    ReconcileIds(before, f);
    AddedRows(before, f);
    forall i | 0 <= i < |r| ensures r[i].iid in Ids(f) && r[i] == RowOf(LastWith(f, r[i].iid)) {
      assert Iids(r)[i] == r[i].iid;
      if i < |kept| {
        assert r[i] == kept[i] && kept[i] in kept;
        SurvivingFrom(patched, f, kept[i]);
        var k :| 0 <= k < |patched| && patched[k] == kept[i];
        assert patched[k] == PatchRow(before[k], f);
      } else {
        assert r[i] == added[i - |kept|] && added[i - |kept|] in added;
        var k :| 0 <= k < |f| && r[i] == RowOf(f[k]);
        LastWithUnique(f, k);
      }
    }
  }

  lemma {:induction false} SurvivingFrom(rows: seq<Row>, f: seq<Service>, r: Row)
    requires r in Surviving(rows, f)
    ensures r in rows && r.iid in Ids(f)
  {
    if rows != [] {
      if r in Surviving(rows[1..], f) {
        SurvivingFrom(rows[1..], f, r);
      }
    }
  }

  lemma {:induction false} SurvivingAll(rows: seq<Row>, f: seq<Service>)
    requires forall i :: 0 <= i < |rows| ==> rows[i].iid in Ids(f)
    ensures Surviving(rows, f) == rows
  {
    if rows != [] {
      assert forall i :: 0 <= i < |rows[1..]| ==> rows[1..][i] == rows[i + 1];
      SurvivingAll(rows[1..], f);
    }
  }

  /** A screen that already shows `f` is left exactly as it is by reconciling with `f`. */
  lemma ShowsFixed(rows: seq<Row>, f: seq<Service>)
    requires Shows(rows, f)
    ensures Reconcile(rows, f) == rows
  {
    assert Patched(rows, f) == rows;
    SurvivingAll(rows, f);
    forall i | 0 <= i < |f| ensures f[i].id in Iids(rows) {
      assert Ids(f)[i] == f[i].id;
    }
    AddedNone(rows, f);
  }

  lemma {:induction false} AddedNone(before: seq<Row>, p: seq<Service>)
    requires forall i :: 0 <= i < |p| ==> p[i].id in Iids(before)
    ensures Added(before, p) == []
    decreases |p|
  {
    if p != [] {
      var n := |p| - 1;
      var q := p[..n];
      forall i | 0 <= i < |q| ensures q[i].id in Iids(before) {
        assert q[i] == p[i];
      }
      AddedNone(before, q);
      assert p == q + [p[n]];
      AddedSnoc(before, q, p[n]);
    }
  }

  /** Reconciling twice with the same services changes nothing the second time. */
  lemma ReconcileIdempotent(before: seq<Row>, f: seq<Service>)
    requires NoDup(Iids(before)) && NoDup(Ids(f))
    ensures Reconcile(Reconcile(before, f), f) == Reconcile(before, f)
  {
    ReconcileShows(before, f);
    ShowsFixed(Reconcile(before, f), f);
  }

  /**
   * What `update_treeview` leaves on screen. When it completes, exactly the
   * listed IDs. When an insertion raises, the old rows and the services seen
   * before the raise: nothing has been deleted.
   */
  lemma AfterUpdateRows(before: seq<Row>, f: seq<Service>)
    ensures FirstCollision(before, f, 0).None? ==>
      forall x :: x in Iids(AfterUpdate(before, f)) <==> x in Ids(f)
    ensures FirstCollision(before, f, 0).Some? ==>
      var k := FirstCollision(before, f, 0).value;
      forall x :: x in Iids(AfterUpdate(before, f)) <==> x in Iids(before) || x in Ids(f[..k])
  {
    match FirstCollision(before, f, 0)
    case None => ReconcileIds(before, f);
    case Some(k) => PassStateIids(before, f, k);
  }

  /** Services with distinct IDs never make `tree.insert` raise, so the update completes. */
  lemma DistinctIdsComplete(before: seq<Row>, f: seq<Service>)
    requires NoDup(Ids(f))
    ensures FirstCollision(before, f, 0).None?
    ensures AfterUpdate(before, f) == Reconcile(before, f)
  {
    forall k | 0 <= k < |f| ensures !CollidesAt(before, f, k) {
      forall i | 0 <= i < k ensures Ids(f[..k])[i] != f[k].id {
        assert Ids(f[..k])[i] == Ids(f)[i] && f[k].id == Ids(f)[k];
      }
    }
  }
}
