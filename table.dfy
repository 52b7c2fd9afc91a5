/** In-memory stand-in for a relational table: a sequence of rows in scan
    order, each carrying the primary key the database assigned. The query
    forms the routes use (`filter(...).first()`, `filter(...).all()`,
    `db.delete(row)`, attribute assignment on a fetched row, `db.add(row)`)
    are the functions below. */
module Table {
  import opened Common

  datatype Row<T> = Row(id: int, val: T)

  /** Some row of `t` has primary key `id`. */
  predicate HasId<T>(t: seq<Row<T>>, id: int)
  {
    exists i :: 0 <= i < |t| && t[i].id == id
  }

  /** Primary keys are unique. */
  ghost predicate UniqueIds<T>(t: seq<Row<T>>)
  {
    forall i, j :: 0 <= i < |t| && 0 <= j < |t| && t[i].id == t[j].id ==> i == j
  }

  /** Every primary key is below `bound`, so `bound` is free for the next insert. */
  ghost predicate IdsBelow<T>(t: seq<Row<T>>, bound: int)
  {
    forall i :: 0 <= i < |t| ==> t[i].id < bound
  }

  /** The invariant every table of the store keeps. */
  ghost predicate WellKeyed<T>(t: seq<Row<T>>, bound: int)
  {
    UniqueIds(t) && IdsBelow(t, bound)
  }

  /** Position of the first element satisfying `p`, or `|s|` when none does. */
  function FirstIndex<T>(s: seq<T>, p: T -> bool): (k: nat)
    ensures k <= |s|
    ensures forall j :: 0 <= j < k ==> !p(s[j])
    ensures k < |s| ==> p(s[k])
  {
    if s == [] then 0
    else if p(s[0]) then 0
    else 1 + FirstIndex(s[1..], p)
  }

  /** `query.filter(p).first()`: the first element in scan order satisfying `p`. */
  function First<T>(s: seq<T>, p: T -> bool): (r: Option<T>)
    ensures r.None? <==> forall j :: 0 <= j < |s| ==> !p(s[j])
    ensures r.Some? ==> r.value == s[FirstIndex(s, p)] && p(r.value)
  {
    var k := FirstIndex(s, p);
    if k < |s| then Some(s[k]) else None
  }

  /** `query.filter(id == key).first()`: the row with primary key `key`. */
  function Lookup<T>(t: seq<Row<T>>, key: int): (r: Option<Row<T>>)
    ensures r.Some? <==> HasId(t, key)
    ensures r.Some? ==> r.value in t && r.value.id == key
    ensures UniqueIds(t) ==> forall i :: 0 <= i < |t| && t[i].id == key ==> r == Some(t[i])
  {
    var k := FirstIndex(t, (x: Row<T>) => x.id == key);
    if k < |t| then Some(t[k]) else None
  }

  /** `query.filter(p).all()`: every element satisfying `p`, in scan order. */
  function Filter<T(!new)>(s: seq<T>, p: T -> bool): (r: seq<T>)
    ensures |r| <= |s|
    ensures forall x :: x in r <==> x in s && p(x)
  {
    if s == [] then []
    else
      var rest := Filter(s[1..], p);
      assert s == [s[0]] + s[1..];
      if p(s[0]) then [s[0]] + rest else rest
  }

  /** The filter keeps every matching element as often as it occurs, and no
      other element. */
  lemma {:induction false} FilterCount<T(!new)>(s: seq<T>, p: T -> bool)
    ensures forall x :: multiset(Filter(s, p))[x] == if p(x) then multiset(s)[x] else 0
  {
    if s != [] {
      FilterCount(s[1..], p);
      assert s == [s[0]] + s[1..];
    }
  }

  /** Filtering distributes over concatenation. */
  lemma {:induction false} FilterConcat<T(!new)>(a: seq<T>, b: seq<T>, p: T -> bool)
    ensures Filter(a + b, p) == Filter(a, p) + Filter(b, p)
  {
    if a == [] {
      assert a + b == b;
    } else {
      assert (a + b)[1..] == a[1..] + b;
      FilterConcat(a[1..], b, p);
    }
  }

  /** A filter every element passes keeps the sequence as it is. */
  lemma {:induction false} FilterKeepsAll<T(!new)>(s: seq<T>, p: T -> bool)
    requires forall j :: 0 <= j < |s| ==> p(s[j])
    ensures Filter(s, p) == s
  {
    if s != [] {
      FilterKeepsAll(s[1..], p);
    }
  }

  /** Putting a row with a fresh key in front of a well-keyed table keeps it well keyed. */
  lemma ConsWellKeyed<T>(x: Row<T>, rest: seq<Row<T>>, bound: int)
    requires WellKeyed(rest, bound) && x.id < bound
    requires forall y :: y in rest ==> y.id != x.id
    ensures WellKeyed([x] + rest, bound)
  {
    var r := [x] + rest;
    forall k | 0 < k < |r| ensures r[k] == rest[k - 1] && r[k] in rest {
    }
  }

  /** A filtered table keeps its keys unique and below the bound. */
  lemma {:induction false} FilterWellKeyed<T(!new)>(t: seq<Row<T>>, p: Row<T> -> bool, bound: int)
    requires WellKeyed(t, bound)
    ensures WellKeyed(Filter(t, p), bound)
  {
    if t != [] {
      assert WellKeyed(t[1..], bound) by {
        forall i, j | 0 <= i < |t[1..]| && 0 <= j < |t[1..]| && t[1..][i].id == t[1..][j].id ensures i == j {
          assert t[i + 1].id == t[j + 1].id;
        }
      }
      FilterWellKeyed(t[1..], p, bound);
      var rest := Filter(t[1..], p);
      if p(t[0]) {
        forall y | y in rest ensures y.id != t[0].id {
          var k :| 0 <= k < |t[1..]| && t[1..][k] == y;
          assert t[k + 1] == y;
        }
        ConsWellKeyed(t[0], rest, bound);
      }
    }
  }

  /** The filter `id != key`. */
  function KeyOtherThan<T>(key: int): Row<T> -> bool
  {
    (x: Row<T>) => x.id != key
  }

  /** `db.delete(row)` for the row with primary key `key`. */
  function Remove<T(!new)>(t: seq<Row<T>>, key: int): (r: seq<Row<T>>)
    ensures forall x :: x in r <==> x in t && x.id != key
    ensures !HasId(r, key)
  {
    Filter(t, KeyOtherThan(key))
  }

  /** Deleting by the key found at position `k` cuts exactly that position
      out, when no other row carries the same key. */
  lemma {:induction false} RemoveAt<T(!new)>(t: seq<Row<T>>, key: int, k: nat)
    requires k < |t| && t[k].id == key
    requires forall j :: 0 <= j < |t| && j != k ==> t[j].id != key
    ensures Remove(t, key) == t[..k] + t[k + 1..]
  {
    var p := KeyOtherThan(key);
    var a, b := t[..k], t[k + 1..];
    assert t == (a + [t[k]]) + b;
    assert !p(t[k]);
    assert Filter([t[k]], p) == [] by {
      assert [t[k]][1..] == [];
    }
    assert forall j :: 0 <= j < |a| ==> p(a[j]);
    assert forall j :: 0 <= j < |b| ==> p(b[j]) by {
      forall j | 0 <= j < |b| ensures p(b[j]) {
        assert b[j] == t[k + 1 + j];
      }
    }
    FilterKeepsAll(a, p);
    FilterKeepsAll(b, p);
    FilterConcat(a, [t[k]], p);
    FilterConcat(a + [t[k]], b, p);
    calc {
      Remove(t, key);
      Filter((a + [t[k]]) + b, p);
      Filter(a + [t[k]], p) + Filter(b, p);
      (Filter(a, p) + Filter([t[k]], p)) + Filter(b, p);
      a + b;
    }
  }

  /** On a well-keyed table, deleting by key removes exactly the one row with
      that key, keeps every other row in its order, and keeps the invariant;
      deleting an absent key changes nothing. */
  lemma RemoveExactlyOne<T(!new)>(t: seq<Row<T>>, key: int, bound: int)
    requires WellKeyed(t, bound)
    ensures WellKeyed(Remove(t, key), bound)
    ensures forall k :: 0 <= k < |t| && t[k].id == key ==> Remove(t, key) == t[..k] + t[k + 1..]
    ensures !HasId(t, key) ==> Remove(t, key) == t
  {
    FilterWellKeyed(t, KeyOtherThan(key), bound);
    forall k | 0 <= k < |t| && t[k].id == key
      ensures Remove(t, key) == t[..k] + t[k + 1..]
    {
      RemoveAt(t, key, k);
    }
    if !HasId(t, key) {
      FilterKeepsAll(t, KeyOtherThan(key));
    }
  }

  /** Attribute assignment on the fetched row with key `key`, then commit:
      that row now carries `v`, every other row is untouched. */
  function Replace<T>(t: seq<Row<T>>, key: int, v: T): (r: seq<Row<T>>)
    ensures |r| == |t|
    ensures forall i :: 0 <= i < |t| ==> r[i].id == t[i].id
    ensures forall i :: 0 <= i < |t| && t[i].id != key ==> r[i] == t[i]
    ensures forall i :: 0 <= i < |t| && t[i].id == key ==> r[i].val == v
  {
    seq(|t|, i requires 0 <= i < |t| => if t[i].id == key then Row(key, v) else t[i])
  }

  /** After an in-place update the table is still well keyed, the updated key
      reads back the new value, and every other key reads back what it did. */
  lemma ReplaceReadBack<T>(t: seq<Row<T>>, key: int, v: T, bound: int)
    requires WellKeyed(t, bound)
    ensures WellKeyed(Replace(t, key, v), bound)
    ensures HasId(t, key) ==> Lookup(Replace(t, key, v), key) == Some(Row(key, v))
    ensures forall other :: other != key ==> Lookup(Replace(t, key, v), other) == Lookup(t, other)
  {
    var r := Replace(t, key, v);
    if HasId(t, key) {
      var i :| 0 <= i < |t| && t[i].id == key;
      assert r[i] == Row(key, v);
    }
    forall other | other != key
      ensures Lookup(r, other) == Lookup(t, other)
    {
      if HasId(t, other) {
        var i :| 0 <= i < |t| && t[i].id == other;
        assert r[i] == t[i];
      } else {
        assert !HasId(r, other);
      }
    }
  }

  /** Writing back the value a row already has leaves the table as it was:
      repeating an in-place update is harmless. */
  lemma ReplaceSame<T>(t: seq<Row<T>>, key: int, v: T)
    requires UniqueIds(t) && Lookup(t, key) == Some(Row(key, v))
    ensures Replace(t, key, v) == t
  {
    var r := Replace(t, key, v);
    forall i | 0 <= i < |t| ensures r[i] == t[i] {
      if t[i].id == key {
        assert Lookup(t, key) == Some(t[i]);
      }
    }
  }

  /** Inserting a row whose key is the next free one keeps the table well
      keyed, makes that key read back the row, and changes no other lookup. */
  lemma InsertReadBack<T>(t: seq<Row<T>>, v: T, bound: int)
    requires WellKeyed(t, bound)
    ensures WellKeyed(t + [Row(bound, v)], bound + 1)
    ensures Lookup(t + [Row(bound, v)], bound) == Some(Row(bound, v))
    ensures forall other :: other != bound ==> Lookup(t + [Row(bound, v)], other) == Lookup(t, other)
  {
    var r := t + [Row(bound, v)];
    assert r[|t|] == Row(bound, v);
    forall other | other != bound
      ensures Lookup(r, other) == Lookup(t, other)
    {
      if HasId(t, other) {
        var i :| 0 <= i < |t| && t[i].id == other;
        assert r[i] == t[i];
      } else {
        assert !HasId(r, other);
      }
    }
  }
}
