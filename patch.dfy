/** Partial updates: `data = payload.dict(exclude_none=True)` followed by
    `for k, v in data.items(): setattr(row, k, v)`. The given fields are a
    sequence of field assignments, applied to the row one after another. */
module Patch {

  /** The row after the assignments `fs`, in order; `assign` is one `setattr`. */
  function SetAll<R, F>(row: R, fs: seq<F>, assign: (R, F) -> R): R
  {
    if fs == [] then row
    else assign(SetAll(row, fs[..|fs| - 1], assign), fs[|fs| - 1])
  }

  /** Applying `a + c` is applying `a`, then `c`. */
  lemma {:induction false} SetAllConcat<R, F>(row: R, a: seq<F>, c: seq<F>, assign: (R, F) -> R)
    ensures SetAll(row, a + c, assign) == SetAll(SetAll(row, a, assign), c, assign)
  {
    if c == [] {
      assert a + c == a;
    } else {
      var c' := c[..|c| - 1];
      assert (a + c)[..|a + c| - 1] == a + c';
      assert (a + c)[|a + c| - 1] == c[|c| - 1];
      SetAllConcat(row, a, c', assign);
    }
  }

  /** One optional assignment (`f` has at most one element): nothing when
      it is absent. */
  function SetOpt<R, F>(row: R, f: seq<F>, assign: (R, F) -> R): R
  {
    if f == [] then row else assign(row, f[0])
  }

  /** Applying one more optional assignment after `a`. */
  lemma SetAllSnoc<R, F>(row: R, a: seq<F>, f: seq<F>, assign: (R, F) -> R)
    requires |f| <= 1
    ensures SetAll(row, a + f, assign) == SetOpt(SetAll(row, a, assign), f, assign)
  {
    SetAllConcat(row, a, f, assign);
    if f != [] {
      assert f[..|f| - 1] == [];
    }
  }

  /** Five optional assignments in a row, as a partial update of five fields. */
  lemma {:induction false} SetAllFive<R, F>(row: R, f1: seq<F>, f2: seq<F>, f3: seq<F>, f4: seq<F>, f5: seq<F>,
                                            assign: (R, F) -> R)
    requires |f1| <= 1 && |f2| <= 1 && |f3| <= 1 && |f4| <= 1 && |f5| <= 1
    ensures SetAll(row, f1 + f2 + f3 + f4 + f5, assign)
            == SetOpt(SetOpt(SetOpt(SetOpt(SetOpt(row, f1, assign), f2, assign), f3, assign), f4, assign), f5, assign)
  {
    SetAllSnoc(row, [], f1, assign);
    assert [] + f1 == f1;
    SetAllSnoc(row, f1, f2, assign);
    SetAllSnoc(row, f1 + f2, f3, assign);
    SetAllSnoc(row, f1 + f2 + f3, f4, assign);
    SetAllSnoc(row, f1 + f2 + f3 + f4, f5, assign);
  }

  /** Six optional assignments in a row, as a partial update of six fields. */
  lemma {:induction false} SetAllSix<R, F>(row: R, f1: seq<F>, f2: seq<F>, f3: seq<F>, f4: seq<F>, f5: seq<F>,
                                           f6: seq<F>, assign: (R, F) -> R)
    requires |f1| <= 1 && |f2| <= 1 && |f3| <= 1 && |f4| <= 1 && |f5| <= 1 && |f6| <= 1
    ensures SetAll(row, f1 + f2 + f3 + f4 + f5 + f6, assign)
            == SetOpt(SetOpt(SetOpt(SetOpt(SetOpt(SetOpt(row, f1, assign), f2, assign), f3, assign), f4, assign),
                             f5, assign), f6, assign)
  {
    SetAllFive(row, f1, f2, f3, f4, f5, assign);
    SetAllSnoc(row, f1 + f2 + f3 + f4 + f5, f6, assign);
  }

  /** The `setattr` loop itself. */
  method SetEach<R, F>(row: R, fs: seq<F>, assign: (R, F) -> R) returns (r: R)
    ensures r == SetAll(row, fs, assign)
  {
    r := row;
    for i := 0 to |fs|
      invariant r == SetAll(row, fs[..i], assign)
    {
      assert fs[..i + 1][..i] == fs[..i];
      r := assign(r, fs[i]);
    }
    assert fs[..|fs|] == fs;
  }
}
