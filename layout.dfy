/** Reply keyboards: rows of buttons, built by cutting a list of labels into rows of a
    fixed width (`[xs[i:i + n] for i in range(0, len(xs), n)]`) and framing them with
    fixed rows; and `Series.unique()`, which keeps each value once, in order of first
    appearance. */
module Layout {

  /** A button: a free label (a date, a time, a number of hours) or one of the fixed ones. */
  datatype Button = Label(text: string) | Back | CurrentReservations | AvailableSlots | ReservationTypeEdit

  type Keyboard = seq<seq<Button>>

  function Labels(xs: seq<string>): (bs: seq<Button>)
    ensures |bs| == |xs| && forall i :: 0 <= i < |xs| ==> bs[i] == Label(xs[i])
  {
    if xs == [] then [] else [Label(xs[0])] + Labels(xs[1..])
  }

  /** The rows of `n` consecutive items; the last row may be shorter. */
  function Chunk<T>(xs: seq<T>, n: nat): (rows: seq<seq<T>>)
    requires n > 0
    decreases |xs|
  {
    if xs == [] then []
    else if |xs| <= n then [xs]
    else [xs[..n]] + Chunk(xs[n..], n)
  }

  function Flatten<T>(rows: seq<seq<T>>): seq<T>
  {
    if rows == [] then [] else rows[0] + Flatten(rows[1..])
  }

  lemma FlattenAppend<T>(a: seq<seq<T>>, b: seq<seq<T>>)
    ensures Flatten(a + b) == Flatten(a) + Flatten(b)
  {
    if a != [] {
      assert (a + b)[1..] == a[1..] + b;
    } else {
      assert a + b == b;
    }
  }

  /** Cutting into rows loses nothing and reorders nothing. */
  lemma {:induction false} ChunkFlatten<T>(xs: seq<T>, n: nat)
    requires n > 0
    ensures Flatten(Chunk(xs, n)) == xs
    decreases |xs|
  {
    if |xs| > n {
      ChunkFlatten(xs[n..], n);
      assert Chunk(xs, n)[1..] == Chunk(xs[n..], n);
      assert xs == xs[..n] + xs[n..];
    } else if xs != [] {
      assert Chunk(xs, n)[1..] == [];
    }
  }

  /** Every row holds between one and `n` items, and every row but the last exactly `n`. */
  lemma {:induction false} ChunkRows<T>(xs: seq<T>, n: nat)
    requires n > 0
    ensures forall i :: 0 <= i < |Chunk(xs, n)| ==> 1 <= |Chunk(xs, n)[i]| <= n
    ensures forall i :: 0 <= i < |Chunk(xs, n)| - 1 ==> |Chunk(xs, n)[i]| == n
    decreases |xs|
  {
    if |xs| > n {
      ChunkRows(xs[n..], n);
      var rows := Chunk(xs, n);
      assert forall i :: 1 <= i < |rows| ==> rows[i] == Chunk(xs[n..], n)[i - 1];
    }
  }

  /** `Series.unique()`: each value once, in order of first appearance. */
  function Unique(xs: seq<string>): (u: seq<string>)
    ensures forall x :: x in u <==> x in xs
    ensures forall i, j :: 0 <= i < j < |u| ==> u[i] != u[j]
  {
    if xs == [] then []
    else
      var front := Unique(xs[..|xs| - 1]);
      var last := xs[|xs| - 1];
      assert xs == xs[..|xs| - 1] + [last];
      if last in front then front else front + [last]
  }

  /** The position of the first `x` in `xs`. */
  function FirstIndex<T(==)>(xs: seq<T>, x: T): (k: nat)
    requires x in xs
    ensures k < |xs| && xs[k] == x && forall i :: 0 <= i < k ==> xs[i] != x
  {
    if xs[0] == x then 0 else 1 + FirstIndex(xs[1..], x)
  }

  /** `unique` lists values in the order in which they first appear. */
  lemma {:induction false} UniqueOrder(xs: seq<string>, i: nat, j: nat)
    requires i < j < |Unique(xs)|
    ensures FirstIndex(xs, Unique(xs)[i]) < FirstIndex(xs, Unique(xs)[j])
    decreases |xs|
  {
    var u := Unique(xs);
    var init := xs[..|xs| - 1];
    var front := Unique(init);
    var last := xs[|xs| - 1];
    if j < |front| {
      UniqueOrder(init, i, j);
      FirstIndexPrefix(init, xs, u[i]);
      FirstIndexPrefix(init, xs, u[j]);
    } else {
      // u[j] is the last item, seen for the first time at the end
      assert u[j] == last && last !in init;
      assert u[i] in init;
      FirstIndexPrefix(init, xs, u[i]);
    }
  }

  lemma FirstIndexPrefix<T>(init: seq<T>, xs: seq<T>, x: T)
    requires |init| < |xs| && init == xs[..|init|] && x in init
    ensures x in xs && FirstIndex(xs, x) == FirstIndex(init, x)
  {
    var k := FirstIndex(init, x);
    assert xs[k] == x;
    var m := FirstIndex(xs, x);
    assert m <= k;
    assert init[m] == x;
  }
}
