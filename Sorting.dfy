/**
 * `sort_column`: the filtered services sorted by one column with a typed
 * key (numbers for CPU, memory, PORT and ID, `parse_uptime` for the uptime,
 * lower-cased text otherwise), stable in both directions, then pushed
 * through `update_treeview`.
 */
module Sorting {
  import opened Py
  import opened Collectors
  import opened Table
  import Uptime

  /** The columns of the table, in display order. */
  datatype Column = IdColumn | NameColumn | VersionColumn | PortColumn | StatusColumn | CpuColumn | MemoryColumn | UptimeColumn

  /** A sort key; Invalid stands for a conversion that raises ValueError. */
  datatype Key = Num(n: int) | Text(t: string) | Invalid

  /**
   * The key of the numeric columns: the number itself, -1 for "N/A" and for
   * a value that is not a number or a string, and the text's value otherwise
   * (`float(x)` for CPU, memory and PORT, `int(x)` for the ID, which agree on
   * integers).
   */
  function NumericKey(v: Scalar): (k: Key)
    ensures v == SStr("N/A") || v == SNull ==> k == Num(-1)
    ensures v.SInt? ==> k == Num(v.i)
    ensures v.SStr? && v.s != "N/A" ==> (k.Invalid? <==> ParseInt(v.s).None?)
    ensures !k.Text?
  {
    match v
    case SNull => Num(-1)
    case SBool(b) => Num(if b then 1 else 0)
    case SInt(i) => Num(i)
    case SStr(s) =>
      if s == "N/A" then Num(-1)
      else match ParseInt(s)
        case None => Invalid
        case Some(n) => Num(n)
  }

  /** The key of the text columns: `x.lower()` for a string, `str(x).lower()` otherwise. */
  function TextKey(v: Scalar): (k: Key)
    ensures k.Text? && |k.t| == |Str(v)|
    ensures v.SStr? ==> k == Text(Lower(v.s))
  {
    Text(Lower(Str(v)))
  }

  /**
   * The key `sort_column` uses for a column: text exactly for the name,
   * version and status, the parsed seconds for the uptime. Only the numeric
   * columns can have a key that raises.
   */
  function KeyOf(col: Column, s: Service): (k: Key)
    ensures k.Text? <==> col == NameColumn || col == VersionColumn || col == StatusColumn
    ensures col == UptimeColumn ==> k == Num(Uptime.ParseUptime(s.uptime))
    ensures k.Invalid? ==> col == IdColumn || col == PortColumn || col == CpuColumn || col == MemoryColumn
  {
    match col
    case IdColumn => NumericKey(s.id)
    case PortColumn => NumericKey(s.port)
    case CpuColumn => NumericKey(s.cpu)
    case MemoryColumn => NumericKey(s.memory)
    case UptimeColumn => Num(Uptime.ParseUptime(s.uptime))
    case NameColumn => TextKey(s.name)
    case VersionColumn => TextKey(s.version)
    case StatusColumn => TextKey(s.status)
  }

  /** Python's `<=` on strings: code point by code point. */
  predicate TextLe(x: string, y: string)
  {
    x == [] || (y != [] && (x[0] < y[0] || (x[0] == y[0] && TextLe(x[1..], y[1..]))))
  }

  function Rank(k: Key): nat
  {
    match k
    case Num(_) => 0
    case Text(_) => 1
    case Invalid => 2
  }

  /** `<=` on keys: numbers and texts as Python compares them (one column never mixes them). */
  predicate KeyLe(a: Key, b: Key)
  {
    if a.Num? && b.Num? then a.n <= b.n
    else if a.Text? && b.Text? then TextLe(a.t, b.t)
    else Rank(a) <= Rank(b)
  }

  lemma {:induction false} TextLeTotal(x: string, y: string)
    ensures TextLe(x, y) || TextLe(y, x)
    ensures TextLe(x, x)
  {
    if x != [] && y != [] {
      TextLeTotal(x[1..], y[1..]);
    } else if x != [] {
      TextLeTotal(x[1..], x[1..]);
    }
  }

  lemma {:induction false} TextLeTrans(x: string, y: string, z: string)
    requires TextLe(x, y) && TextLe(y, z)
    ensures TextLe(x, z)
  {
    if x != [] && y != [] && z != [] && x[0] == y[0] && y[0] == z[0] {
      TextLeTrans(x[1..], y[1..], z[1..]);
    }
  }

  lemma KeyLeTotal(a: Key, b: Key)
    ensures KeyLe(a, b) || KeyLe(b, a)
    ensures KeyLe(a, a)
  {
    if a.Text? && b.Text? { TextLeTotal(a.t, b.t); }
    if a.Text? { TextLeTotal(a.t, a.t); }
  }

  lemma KeyLeTrans(a: Key, b: Key, c: Key)
    requires KeyLe(a, b) && KeyLe(b, c)
    ensures KeyLe(a, c)
  {
    if a.Text? && b.Text? && c.Text? { TextLeTrans(a.t, b.t, c.t); }
  }

  /** `a` may stand before `b` in the result: ascending, or descending when `desc`. */
  predicate Precedes(desc: bool, a: Key, b: Key)
  {
    if desc then KeyLe(b, a) else KeyLe(a, b)
  }

  lemma PrecedesTotal(desc: bool, a: Key, b: Key)
    ensures Precedes(desc, a, b) || Precedes(desc, b, a)
    ensures Precedes(desc, a, a)
  {
    KeyLeTotal(a, b);
  }

  lemma PrecedesTrans(desc: bool, a: Key, b: Key, c: Key)
    requires Precedes(desc, a, b) && Precedes(desc, b, c)
    ensures Precedes(desc, a, c)
  {
    if desc { KeyLeTrans(c, b, a); } else { KeyLeTrans(a, b, c); }
  }

  /** The key function `sort_column` hands to `sorted` for a column. */
  function ColumnKey(col: Column): Service -> Key
  {
    s => KeyOf(col, s)
  }

  /** Every service precedes every later one by its key. */
  predicate SortedBy(key: Service -> Key, desc: bool, s: seq<Service>)
  {
    forall i, j :: 0 <= i < j < |s| ==> Precedes(desc, key(s[i]), key(s[j]))
  }

  /** The services with key `k`, in their order. */
  function WithKey(key: Service -> Key, s: seq<Service>, k: Key): seq<Service>
  {
    if s == [] then [] else (if key(s[0]) == k then [s[0]] else []) + WithKey(key, s[1..], k)
  }

  /** `x` placed before the first service it precedes, so that it stays ahead of equal keys. */
  function InsertSorted(key: Service -> Key, desc: bool, x: Service, t: seq<Service>): (r: seq<Service>)
    ensures multiset(r) == multiset([x] + t)
    ensures |r| == |t| + 1
  {
    if t == [] then [x]
    else if Precedes(desc, key(x), key(t[0])) then [x] + t
    else
      assert t == [t[0]] + t[1..];
      [t[0]] + InsertSorted(key, desc, x, t[1..])
  }

  /** Python's stable `sorted(s, key=key, reverse=desc)`. */
  function SortWith(key: Service -> Key, desc: bool, s: seq<Service>): (r: seq<Service>)
    ensures multiset(r) == multiset(s)
    ensures |r| == |s|
  {
    if s == [] then []
    else
      assert s == [s[0]] + s[1..];
      InsertSorted(key, desc, s[0], SortWith(key, desc, s[1..]))
  }

  /** Every key of the column converts. */
  predicate KeysValid(col: Column, s: seq<Service>)
  {
    forall i :: 0 <= i < |s| ==> !KeyOf(col, s[i]).Invalid?
  }

  /** `sort_column`'s result: None when a key conversion raises (an error box, nothing changes). */
  function SortServices(col: Column, desc: bool, s: seq<Service>): (r: Option<seq<Service>>)
    ensures r.Some? <==> KeysValid(col, s)
  {
    if KeysValid(col, s) then Some(SortWith(ColumnKey(col), desc, s)) else None
  }

  // ------------------------------------------------------------ the sort's properties

  /** A service that precedes every element of a sorted list can head it. */
  lemma ConsSorted(key: Service -> Key, desc: bool, y: Service, rest: seq<Service>)
    requires SortedBy(key, desc, rest)
    requires forall e :: e in rest ==> Precedes(desc, key(y), key(e))
    ensures SortedBy(key, desc, [y] + rest)
  {
    var r := [y] + rest;
    forall i, j | 0 <= i < j < |r| ensures Precedes(desc, key(r[i]), key(r[j])) {
      assert r[j] == rest[j - 1];
      if i > 0 { assert r[i] == rest[i - 1]; }
    }
  }

  lemma SortedTail(key: Service -> Key, desc: bool, t: seq<Service>)
    requires t != [] && SortedBy(key, desc, t)
    ensures SortedBy(key, desc, t[1..])
    ensures forall e :: e in t[1..] ==> Precedes(desc, key(t[0]), key(e))
  {
    var t' := t[1..];
    forall i, j | 0 <= i < j < |t'| ensures Precedes(desc, key(t'[i]), key(t'[j])) {
      assert t'[i] == t[i + 1] && t'[j] == t[j + 1];
    }
    forall e | e in t' ensures Precedes(desc, key(t[0]), key(e)) {
      var k :| 0 <= k < |t'| && t'[k] == e;
      assert t[k + 1] == e;
    }
  }

  lemma {:induction false} InsertSortedKeepsOrder(key: Service -> Key, desc: bool, x: Service, t: seq<Service>)
    requires SortedBy(key, desc, t)
    ensures SortedBy(key, desc, InsertSorted(key, desc, x, t))
    decreases |t|
  {
    if t == [] {
      ConsSorted(key, desc, x, []);
    } else {
      SortedTail(key, desc, t);
      if Precedes(desc, key(x), key(t[0])) {
        forall e | e in t ensures Precedes(desc, key(x), key(e)) {
          if e != t[0] {
            assert e in t[1..] by { assert t == [t[0]] + t[1..]; }
            PrecedesTrans(desc, key(x), key(t[0]), key(e));
          }
        }
        ConsSorted(key, desc, x, t);
      } else {
        PrecedesTotal(desc, key(x), key(t[0]));
        InsertSortedKeepsOrder(key, desc, x, t[1..]);
        var rest := InsertSorted(key, desc, x, t[1..]);
        forall e | e in rest ensures Precedes(desc, key(t[0]), key(e)) {
          assert e in multiset([x] + t[1..]);
        }
        ConsSorted(key, desc, t[0], rest);
      }
    }
  }

  /** The sorted list is ordered by the key. */
  lemma {:induction false} SortWithOrdered(key: Service -> Key, desc: bool, s: seq<Service>)
    ensures SortedBy(key, desc, SortWith(key, desc, s))
  {
    if s != [] {
      SortWithOrdered(key, desc, s[1..]);
      InsertSortedKeepsOrder(key, desc, s[0], SortWith(key, desc, s[1..]));
    }
  }

  /** The services of key `k` among `[y] + t`: `y` if it has that key, then those of `t`. */
  lemma WithKeyCons(key: Service -> Key, y: Service, t: seq<Service>, k: Key)
    ensures WithKey(key, [y] + t, k) == (if key(y) == k then [y] else []) + WithKey(key, t, k)
  {
    assert ([y] + t)[1..] == t;
  }

  lemma {:induction false} InsertSortedStable(key: Service -> Key, desc: bool, x: Service, t: seq<Service>, k: Key)
    ensures WithKey(key, InsertSorted(key, desc, x, t), k) == WithKey(key, [x] + t, k)
    decreases |t|
  {
    if t != [] && !Precedes(desc, key(x), key(t[0])) {
      PrecedesTotal(desc, key(x), key(x));
      var t' := t[1..];
      var hx, h0 := (if key(x) == k then [x] else []), (if key(t[0]) == k then [t[0]] else []);
      assert hx == [] || h0 == [];
      calc {
        WithKey(key, InsertSorted(key, desc, x, t), k);
        WithKey(key, [t[0]] + InsertSorted(key, desc, x, t'), k);
        { WithKeyCons(key, t[0], InsertSorted(key, desc, x, t'), k); }
        h0 + WithKey(key, InsertSorted(key, desc, x, t'), k);
        { InsertSortedStable(key, desc, x, t', k); WithKeyCons(key, x, t', k); }
        h0 + (hx + WithKey(key, t', k));
        hx + (h0 + WithKey(key, t', k));
        { WithKeyCons(key, t[0], t', k); assert [t[0]] + t' == t; }
        hx + WithKey(key, t, k);
        { WithKeyCons(key, x, t, k); }
        WithKey(key, [x] + t, k);
      }
    }
  }

  /** Stability: the services of any one key come out in their original order. */
  lemma {:induction false} SortWithStable(key: Service -> Key, desc: bool, s: seq<Service>, k: Key)
    ensures WithKey(key, SortWith(key, desc, s), k) == WithKey(key, s, k)
  {
    if s != [] {
      var rest := SortWith(key, desc, s[1..]);
      var h := if key(s[0]) == k then [s[0]] else [];
      calc {
        WithKey(key, SortWith(key, desc, s), k);
        WithKey(key, InsertSorted(key, desc, s[0], rest), k);
        { InsertSortedStable(key, desc, s[0], rest, k); }
        WithKey(key, [s[0]] + rest, k);
        { WithKeyCons(key, s[0], rest, k); }
        h + WithKey(key, rest, k);
        { SortWithStable(key, desc, s[1..], k); }
        h + WithKey(key, s[1..], k);
      }
    }
  }

  /**
   * `sort_column` returns a permutation of the filtered services, ordered by
   * the column's key and stable among equal keys, in both directions.
   */
  lemma SortServicesSpec(col: Column, desc: bool, s: seq<Service>)
    requires KeysValid(col, s)
    ensures SortServices(col, desc, s).Some?
    ensures var r := SortServices(col, desc, s).value;
      && multiset(r) == multiset(s)
      && SortedBy(ColumnKey(col), desc, r)
      && forall k :: WithKey(ColumnKey(col), r, k) == WithKey(ColumnKey(col), s, k)
  {
    var key := ColumnKey(col);
    SortWithOrdered(key, desc, s);
    forall k ensures WithKey(key, SortWith(key, desc, s), k) == WithKey(key, s, k) {
      SortWithStable(key, desc, s, k);
    }
  }

  // ------------------------------------------------------------ sorting and the screen

  /** A permutation of services with distinct IDs has distinct IDs and the same last-with-ID services. */
  lemma PermutationIds(f: seq<Service>, g: seq<Service>)
    requires multiset(f) == multiset(g) && NoDup(Ids(f))
    ensures NoDup(Ids(g))
    ensures forall x :: x in Ids(g) <==> x in Ids(f)
  {
    forall x | x in Ids(g) ensures x in Ids(f) {
      var i :| 0 <= i < |g| && Ids(g)[i] == x;
      assert g[i] in multiset(f);
      var k :| 0 <= k < |f| && f[k] == g[i];
      assert Ids(f)[k] == x;
    }
    forall x | x in Ids(f) ensures x in Ids(g) {
      var i :| 0 <= i < |f| && Ids(f)[i] == x;
      assert f[i] in multiset(g);
      var k :| 0 <= k < |g| && g[k] == f[i];
      assert Ids(g)[k] == x;
    }
    forall i, j | 0 <= i < j < |g| ensures Ids(g)[i] != Ids(g)[j] {
      if g[i] == g[j] {
        assert multiset(g)[g[i]] >= 2 by {
          MultisetTwo(g, i, j);
        }
        assert multiset(f)[g[i]] >= 2;
        var a, b := TwoPositions(f, g[i]);
      } else {
        assert g[i] in multiset(f) && g[j] in multiset(f);
        var a :| 0 <= a < |f| && f[a] == g[i];
        var b :| 0 <= b < |f| && f[b] == g[j];
        assert a != b;
        if a < b { assert Ids(f)[a] != Ids(f)[b]; } else { assert Ids(f)[b] != Ids(f)[a]; }
      }
    }
  }

  lemma MultisetTwo<T>(s: seq<T>, i: nat, j: nat)
    requires i < j < |s| && s[i] == s[j]
    ensures multiset(s)[s[i]] >= 2
  {
    assert s == s[..i] + [s[i]] + s[i + 1..j] + [s[j]] + s[j + 1..];
  }

  lemma {:induction false} TwoPositions<T>(s: seq<T>, x: T) returns (a: nat, b: nat)
    requires multiset(s)[x] >= 2
    ensures a < b < |s| && s[a] == x && s[b] == x
  {
    assert s != [];
    assert s == [s[0]] + s[1..];
    if s[0] == x {
      assert x in multiset(s[1..]);
      var k :| 0 <= k < |s[1..]| && s[1..][k] == x;
      a, b := 0, k + 1;
    } else {
      var a', b' := TwoPositions(s[1..], x);
      a, b := a' + 1, b' + 1;
    }
  }

  /** The only service of distinct-ID services carrying an ID is the last one with it. */
  lemma LastWithMember(f: seq<Service>, e: Service)
    requires NoDup(Ids(f)) && e in f
    ensures e.id in Ids(f) && LastWith(f, e.id) == e
  {
    var i :| 0 <= i < |f| && f[i] == e;
    LastWithUnique(f, i);
  }

  /** A screen that shows `f` also shows any permutation of `f`. */
  lemma ShowsPermutation(rows: seq<Row>, f: seq<Service>, g: seq<Service>)
    requires Shows(rows, f) && NoDup(Ids(f)) && multiset(f) == multiset(g)
    ensures Shows(rows, g) && NoDup(Ids(g))
  {
    PermutationIds(f, g);
    forall i | 0 <= i < |rows| ensures rows[i].iid in Ids(g) && rows[i] == RowOf(LastWith(g, rows[i].iid)) {
      var e := LastWith(f, rows[i].iid);
      assert e in multiset(g);
      LastWithMember(g, e);
    }
  }

  /**
   * Sorting a table that already shows the filtered services (distinct IDs)
   * moves no row: `update_treeview` on the sorted list only rewrites every
   * row with the values it already has.
   */
  lemma SortKeepsScreen(rows: seq<Row>, col: Column, desc: bool, f: seq<Service>)
    requires Shows(rows, f) && NoDup(Ids(f)) && KeysValid(col, f)
    ensures AfterUpdate(rows, SortServices(col, desc, f).value) == rows
  {
    var g := SortServices(col, desc, f).value;
    ShowsPermutation(rows, f, g);
    DistinctIdsComplete(rows, g);
    ShowsFixed(rows, g);
  }

  /** "N/A" ranks below every non-negative figure, ascending. */
  lemma NotAvailableFirst(col: Column, s: Service, t: Service)
    requires col == CpuColumn && s.cpu == SStr("N/A") && t.cpu.SInt? && t.cpu.i >= 0
    ensures Precedes(false, ColumnKey(col)(s), ColumnKey(col)(t)) && !Precedes(false, ColumnKey(col)(t), ColumnKey(col)(s))
  {
  }
}
