/** The seat grid as a value: a matrix of seats, each with an occupied flag and a
    buyer name (the source keeps these as two parallel matrices), together with
    what the reservation service derives from it: the booked count, the revenue,
    and the row-major list of bookings. The class in Concert.dfy exposes its
    arrays through this value. */
module SeatGrid {
  import opened Pricing

  /** One seat: occupied or not, and the name it was bought under. */
  datatype Seat = Seat(taken: bool, name: string)

  /** A seat nobody holds: the state the constructor and a reset leave behind. */
  const Free: Seat := Seat(false, "")

  /** One booked seat as listed by the admin view and written to the seat file. */
  datatype Booking = Booking(row: nat, col: nat, name: string) {
    /** The price charged for the booked seat, derived from its row. */
    function Price(): nat { SeatPrice(row) }
  }

  type Grid = seq<seq<Seat>>

  /** `g` has `r` rows of `c` seats each. */
  predicate IsGrid(g: Grid, r: nat, c: nat)
  {
    |g| == r && forall i :: 0 <= i < r ==> |g[i]| == c
  }

  predicate InGrid(g: Grid, i: int, j: int)
  {
    0 <= i < |g| && 0 <= j < |g[i]|
  }

  /** `h` has the same rows and the same row lengths as `g`. */
  predicate SameShape(g: Grid, h: Grid)
  {
    |h| == |g| && forall i :: 0 <= i < |g| ==> |h[i]| == |g[i]|
  }

  /** The grid invariant: a seat nobody holds carries the empty name.
      (An occupied seat may also carry the empty name: buying accepts it.) */
  predicate NamesCleared(g: Grid)
  {
    forall i, j :: 0 <= i < |g| && 0 <= j < |g[i]| && !g[i][j].taken ==> g[i][j].name == ""
  }

  /** The grid the constructor builds before loading: `r` by `c`, all free. */
  function EmptyGrid(r: nat, c: nat): (g: Grid)
    ensures IsGrid(g, r, c) && NamesCleared(g)
    ensures forall i, j :: 0 <= i < r && 0 <= j < c ==> g[i][j] == Free
  {
    seq(r, _ => seq(c, _ => Free))
  }

  /** Marking one seat as bought by `name`: that seat, and nothing else, changes. */
  function Occupy(g: Grid, i: nat, j: nat, name: string): (h: Grid)
    requires InGrid(g, i, j)
    ensures SameShape(g, h)
    ensures h[i][j] == Seat(true, name)
    ensures forall k, l :: InGrid(g, k, l) && !(k == i && l == j) ==> h[k][l] == g[k][l]
  {
    g[i := g[i][j := Seat(true, name)]]
  }

  /** Every seat freed, the shape kept. */
  function Cleared(g: Grid): (h: Grid)
    ensures SameShape(g, h)
    ensures forall i, j :: InGrid(g, i, j) ==> h[i][j] == Free
  {
    seq(|g|, i requires 0 <= i < |g| => seq(|g[i]|, _ => Free))
  }

  /** Two grids of the same shape that agree seat by seat are equal. */
  lemma GridExt(g: Grid, h: Grid)
    requires SameShape(g, h)
    requires forall i, j :: InGrid(g, i, j) ==> g[i][j] == h[i][j]
    ensures g == h
  {
    forall i | 0 <= i < |g|
      ensures g[i] == h[i]
    {
      assert forall j :: 0 <= j < |g[i]| ==> g[i][j] == h[i][j];
    }
  }

  // ---------------------------------------------------------------------------
  // Counting and revenue, row by row in row-major order

  /** Number of occupied seats in one row. */
  function RowBooked(row: seq<Seat>): nat
  {
    if row == [] then 0
    else RowBooked(row[..|row| - 1]) + (if row[|row| - 1].taken then 1 else 0)
  }

  /** Number of occupied seats in the grid. */
  function Booked(g: Grid): nat
  {
    if g == [] then 0 else Booked(g[..|g| - 1]) + RowBooked(g[|g| - 1])
  }

  /** `price` once for every occupied seat of one row. */
  function RowRevenue(row: seq<Seat>, price: nat): nat
  {
    if row == [] then 0
    else RowRevenue(row[..|row| - 1], price) + (if row[|row| - 1].taken then price else 0)
  }

  /** What the occupied seats are worth: the sum of the row price over every
      occupied seat. The running total must always equal this. */
  function Revenue(g: Grid): nat
  {
    if g == [] then 0 else Revenue(g[..|g| - 1]) + RowRevenue(g[|g| - 1], SeatPrice(|g| - 1))
  }

  /** The bookings of row `i`, by increasing column. */
  function RowBookings(row: seq<Seat>, i: nat): seq<Booking>
  {
    if row == [] then []
    else
      var j := |row| - 1;
      RowBookings(row[..j], i) + (if row[j].taken then [Booking(i, j, row[j].name)] else [])
  }

  /** All bookings of the grid in row-major order: what the admin listing shows
      and the seat file holds. */
  function Bookings(g: Grid): seq<Booking>
  {
    if g == [] then [] else Bookings(g[..|g| - 1]) + RowBookings(g[|g| - 1], |g| - 1)
  }

  /** Sum of the prices of a list of bookings. */
  function PriceSum(bs: seq<Booking>): nat
  {
    if bs == [] then 0 else PriceSum(bs[..|bs| - 1]) + bs[|bs| - 1].Price()
  }

  /** `a` comes strictly before `b` in row-major order. */
  predicate Before(a: Booking, b: Booking)
  {
    a.row < b.row || (a.row == b.row && a.col < b.col)
  }

  /** A list strictly increasing in row-major order (so no seat twice). */
  predicate RowMajor(bs: seq<Booking>)
  {
    forall k, l :: 0 <= k < l < |bs| ==> Before(bs[k], bs[l])
  }

  /** Every booking names a seat of an `r` by `c` grid. */
  predicate Fits(bs: seq<Booking>, r: nat, c: nat)
  {
    forall k :: 0 <= k < |bs| ==> bs[k].row < r && bs[k].col < c
  }

  predicate InBounds(bs: seq<Booking>, g: Grid)
  {
    forall k :: 0 <= k < |bs| ==> InGrid(g, bs[k].row, bs[k].col)
  }

  /** Replaying saved bookings onto a grid, one after the other, as the loader does. */
  function Apply(g: Grid, bs: seq<Booking>): (h: Grid)
    requires InBounds(bs, g)
    ensures SameShape(g, h)
    decreases |bs|
  {
    if bs == [] then g
    else
      var b := bs[|bs| - 1];
      Occupy(Apply(g, bs[..|bs| - 1]), b.row, b.col, b.name)
  }

  /** The saved bookings name distinct seats, none of them already occupied in `g`:
      the condition under which loading keeps the revenue consistent. */
  predicate FreshTargets(g: Grid, bs: seq<Booking>)
    requires InBounds(bs, g)
  {
    && (forall k :: 0 <= k < |bs| ==> !g[bs[k].row][bs[k].col].taken)
    && (forall k, l :: 0 <= k < l < |bs| ==> !(bs[k].row == bs[l].row && bs[k].col == bs[l].col))
  }

  // ---------------------------------------------------------------------------
  // One more seat, one more row: the steps of a row-major scan

  lemma RowStep(row: seq<Seat>, i: nat, j: nat)
    requires j < |row|
    ensures RowBooked(row[..j + 1]) == RowBooked(row[..j]) + (if row[j].taken then 1 else 0)
    ensures RowBookings(row[..j + 1], i) ==
      RowBookings(row[..j], i) + (if row[j].taken then [Booking(i, j, row[j].name)] else [])
  {
    assert row[..j + 1][..j] == row[..j];
  }

  lemma GridStep(g: Grid, i: nat)
    requires i < |g|
    ensures Booked(g[..i + 1]) == Booked(g[..i]) + RowBooked(g[i])
    ensures Bookings(g[..i + 1]) == Bookings(g[..i]) + RowBookings(g[i], i)
  {
    assert g[..i + 1][..i] == g[..i];
  }

  lemma ApplySnoc(g: Grid, bs: seq<Booking>, b: Booking)
    requires InBounds(bs, g) && InGrid(g, b.row, b.col)
    ensures InBounds(bs + [b], g)
    ensures Apply(g, bs + [b]) == Occupy(Apply(g, bs), b.row, b.col, b.name)
    ensures PriceSum(bs + [b]) == PriceSum(bs) + SeatPrice(b.row)
  {
    assert (bs + [b])[..|bs|] == bs;
  }

  // ---------------------------------------------------------------------------
  // Statistics

  lemma {:induction false} RowBookedBound(row: seq<Seat>)
    ensures RowBooked(row) <= |row|
  {
    if row != [] {
      RowBookedBound(row[..|row| - 1]);
    }
  }

  /** At most every seat is booked, so the available count is never negative. */
  lemma {:induction false} BookedBound(g: Grid, r: nat, c: nat)
    requires IsGrid(g, r, c)
    ensures Booked(g) <= r * c
  {
    if g != [] {
      BookedBound(g[..r - 1], r - 1, c);
      RowBookedBound(g[r - 1]);
      assert (r - 1) * c + c == r * c;
    }
  }

  lemma {:induction false} RowBookedOccupy(row: seq<Seat>, j: nat, name: string)
    requires j < |row| && !row[j].taken
    ensures RowBooked(row[j := Seat(true, name)]) == RowBooked(row) + 1
  {
    var row' := row[j := Seat(true, name)];
    var n := |row| - 1;
    if j == n {
      assert row'[..n] == row[..n];
    } else {
      assert row'[..n] == row[..n][j := Seat(true, name)];
      RowBookedOccupy(row[..n], j, name);
    }
  }

  /** A purchase adds exactly one to the booked count. */
  lemma {:induction false} BookedOccupy(g: Grid, i: nat, j: nat, name: string)
    requires InGrid(g, i, j) && !g[i][j].taken
    ensures Booked(Occupy(g, i, j, name)) == Booked(g) + 1
  {
    var h := Occupy(g, i, j, name);
    var n := |g| - 1;
    if i == n {
      assert h[..n] == g[..n];
      RowBookedOccupy(g[i], j, name);
    } else {
      assert h[..n] == Occupy(g[..n], i, j, name);
      BookedOccupy(g[..n], i, j, name);
    }
  }

  lemma {:induction false} RowRevenueOccupy(row: seq<Seat>, j: nat, name: string, price: nat)
    requires j < |row| && !row[j].taken
    ensures RowRevenue(row[j := Seat(true, name)], price) == RowRevenue(row, price) + price
  {
    var row' := row[j := Seat(true, name)];
    var n := |row| - 1;
    if j == n {
      assert row'[..n] == row[..n];
    } else {
      assert row'[..n] == row[..n][j := Seat(true, name)];
      RowRevenueOccupy(row[..n], j, name, price);
    }
  }

  /** A purchase of a free seat raises the revenue by exactly that row's price. */
  lemma {:induction false} RevenueOccupy(g: Grid, i: nat, j: nat, name: string)
    requires InGrid(g, i, j) && !g[i][j].taken
    ensures Revenue(Occupy(g, i, j, name)) == Revenue(g) + SeatPrice(i)
  {
    var h := Occupy(g, i, j, name);
    var n := |g| - 1;
    if i == n {
      assert h[..n] == g[..n];
      RowRevenueOccupy(g[i], j, name, SeatPrice(i));
    } else {
      assert h[..n] == Occupy(g[..n], i, j, name);
      RevenueOccupy(g[..n], i, j, name);
    }
  }

  /** Buying keeps the name invariant, whatever the name (the empty one included). */
  lemma OccupyKeepsNames(g: Grid, i: nat, j: nat, name: string)
    requires InGrid(g, i, j) && NamesCleared(g)
    ensures NamesCleared(Occupy(g, i, j, name))
  {
  }

  // ---------------------------------------------------------------------------
  // Reset

  lemma {:induction false} RowClearedCounts(row: seq<Seat>, price: nat)
    requires forall j :: 0 <= j < |row| ==> row[j] == Free
    ensures RowBooked(row) == 0 && RowRevenue(row, price) == 0
  {
    if row != [] {
      RowClearedCounts(row[..|row| - 1], price);
    }
  }

  lemma {:induction false} AllFreeCounts(g: Grid)
    requires forall i, j :: InGrid(g, i, j) ==> g[i][j] == Free
    ensures Booked(g) == 0 && Revenue(g) == 0
  {
    if g != [] {
      var n := |g| - 1;
      AllFreeCounts(g[..n]);
      RowClearedCounts(g[n], SeatPrice(n));
    }
  }

  /** A reset leaves no booking, no revenue and only empty names, and a second
      reset changes nothing more. */
  lemma ClearedProperties(g: Grid, r: nat, c: nat)
    requires IsGrid(g, r, c)
    ensures Cleared(g) == EmptyGrid(r, c)
    ensures Booked(Cleared(g)) == 0 && Revenue(Cleared(g)) == 0
    ensures NamesCleared(Cleared(g))
    ensures Cleared(Cleared(g)) == Cleared(g)
  {
    GridExt(Cleared(g), EmptyGrid(r, c));
    GridExt(Cleared(Cleared(g)), Cleared(g));
    AllFreeCounts(Cleared(g));
  }

  // ---------------------------------------------------------------------------
  // The row-major booking list

  lemma {:induction false} RowBookingsSound(row: seq<Seat>, i: nat)
    ensures forall k :: 0 <= k < |RowBookings(row, i)| ==>
      RowBookings(row, i)[k].row == i && RowBookings(row, i)[k].col < |row| &&
      row[RowBookings(row, i)[k].col] == Seat(true, RowBookings(row, i)[k].name)
  {
    if row != [] {
      var j := |row| - 1;
      RowBookingsSound(row[..j], i);
    }
  }

  lemma {:induction false} RowBookingsComplete(row: seq<Seat>, i: nat, j: nat)
    requires j < |row| && row[j].taken
    ensures Booking(i, j, row[j].name) in RowBookings(row, i)
  {
    var n := |row| - 1;
    if j < n {
      RowBookingsComplete(row[..n], i, j);
    }
  }

  lemma {:induction false} RowBookingsOrdered(row: seq<Seat>, i: nat)
    ensures forall k, l :: 0 <= k < l < |RowBookings(row, i)| ==>
      RowBookings(row, i)[k].col < RowBookings(row, i)[l].col
  {
    if row != [] {
      var j := |row| - 1;
      RowBookingsOrdered(row[..j], i);
      RowBookingsSound(row[..j], i);
    }
  }

  lemma {:induction false} RowBookingsCount(row: seq<Seat>, i: nat)
    ensures |RowBookings(row, i)| == RowBooked(row)
  {
    if row != [] {
      RowBookingsCount(row[..|row| - 1], i);
    }
  }

  lemma {:induction false} PriceSumAppend(a: seq<Booking>, b: seq<Booking>)
    ensures PriceSum(a + b) == PriceSum(a) + PriceSum(b)
    decreases |b|
  {
    if b == [] {
      assert a + b == a;
    } else {
      var n := |b| - 1;
      assert (a + b)[..|a + b| - 1] == a + b[..n];
      PriceSumAppend(a, b[..n]);
    }
  }

  lemma {:induction false} RowBookingsRevenue(row: seq<Seat>, i: nat)
    ensures PriceSum(RowBookings(row, i)) == RowRevenue(row, SeatPrice(i))
  {
    if row != [] {
      var j := |row| - 1;
      RowBookingsRevenue(row[..j], i);
      PriceSumAppend(RowBookings(row[..j], i),
                     if row[j].taken then [Booking(i, j, row[j].name)] else []);
    }
  }

  /** The listing names each occupied seat once: its length is the booked count. */
  lemma {:induction false} BookingsCount(g: Grid)
    ensures |Bookings(g)| == Booked(g)
  {
    if g != [] {
      var n := |g| - 1;
      BookingsCount(g[..n]);
      RowBookingsCount(g[n], n);
    }
  }

  /** The listed prices add up to the revenue the grid is worth. */
  lemma {:induction false} BookingsRevenue(g: Grid)
    ensures PriceSum(Bookings(g)) == Revenue(g)
  {
    if g != [] {
      var n := |g| - 1;
      BookingsRevenue(g[..n]);
      RowBookingsRevenue(g[n], n);
      PriceSumAppend(Bookings(g[..n]), RowBookings(g[n], n));
    }
  }

  /** Every listed booking is an occupied seat of the grid, with its buyer's name. */
  lemma {:induction false} BookingsSound(g: Grid)
    ensures InBounds(Bookings(g), g)
    ensures forall k :: 0 <= k < |Bookings(g)| ==>
      g[Bookings(g)[k].row][Bookings(g)[k].col] == Seat(true, Bookings(g)[k].name)
  {
    if g != [] {
      var n := |g| - 1;
      BookingsSound(g[..n]);
      RowBookingsSound(g[n], n);
      var a: seq<Booking>, b: seq<Booking> := Bookings(g[..n]), RowBookings(g[n], n);
      assert Bookings(g) == a + b;
      forall k | 0 <= k < |a + b|
        ensures InGrid(g, (a + b)[k].row, (a + b)[k].col)
        ensures g[(a + b)[k].row][(a + b)[k].col] == Seat(true, (a + b)[k].name)
      {
        if k < |a| {
          assert (a + b)[k] == a[k];
        } else {
          assert (a + b)[k] == b[k - |a|];
        }
      }
    }
  }

  /** Every occupied seat is listed, with its buyer's name. */
  lemma {:induction false} BookingsComplete(g: Grid, i: nat, j: nat)
    requires InGrid(g, i, j) && g[i][j].taken
    ensures Booking(i, j, g[i][j].name) in Bookings(g)
  {
    var n := |g| - 1;
    if i == n {
      RowBookingsComplete(g[n], n, j);
    } else {
      assert g[..n][i][j] == g[i][j];
      BookingsComplete(g[..n], i, j);
    }
  }

  /** The listing is in strictly increasing row-major order. */
  lemma {:induction false} BookingsRowMajor(g: Grid)
    ensures RowMajor(Bookings(g))
  {
    if g != [] {
      var n := |g| - 1;
      BookingsRowMajor(g[..n]);
      BookingsSound(g[..n]);
      RowBookingsSound(g[n], n);
      RowBookingsOrdered(g[n], n);
      var a: seq<Booking>, b: seq<Booking> := Bookings(g[..n]), RowBookings(g[n], n);
      assert Bookings(g) == a + b;
      forall k, l | 0 <= k < l < |a + b|
        ensures Before((a + b)[k], (a + b)[l])
      {
        if l < |a| {
          assert (a + b)[k] == a[k] && (a + b)[l] == a[l];
        } else if k < |a| {
          assert (a + b)[k] == a[k] && (a + b)[l] == b[l - |a|];
        } else {
          assert (a + b)[k] == b[k - |a|] && (a + b)[l] == b[l - |a|];
        }
      }
    }
  }

  // ---------------------------------------------------------------------------
  // Replaying bookings (the loader)

  /** A seat no replayed booking names keeps its old value. */
  lemma {:induction false} ApplyUntouched(g: Grid, bs: seq<Booking>, i: nat, j: nat)
    requires InBounds(bs, g) && InGrid(g, i, j)
    requires forall k :: 0 <= k < |bs| ==> !(bs[k].row == i && bs[k].col == j)
    ensures Apply(g, bs)[i][j] == g[i][j]
    decreases |bs|
  {
    if bs != [] {
      ApplyUntouched(g, bs[..|bs| - 1], i, j);
    }
  }

  /** A seat named by a replayed booking that no later booking names holds that
      booking's buyer. */
  lemma {:induction false} ApplyHit(g: Grid, bs: seq<Booking>, k: nat)
    requires InBounds(bs, g) && k < |bs|
    requires forall l :: k < l < |bs| ==> !(bs[l].row == bs[k].row && bs[l].col == bs[k].col)
    ensures Apply(g, bs)[bs[k].row][bs[k].col] == Seat(true, bs[k].name)
    decreases |bs|
  {
    var n := |bs| - 1;
    if k < n {
      ApplyHit(g, bs[..n], k);
    }
  }

  /** Replaying never breaks the name invariant. */
  lemma {:induction false} ApplyKeepsNames(g: Grid, bs: seq<Booking>)
    requires InBounds(bs, g) && NamesCleared(g)
    ensures NamesCleared(Apply(g, bs))
    decreases |bs|
  {
    if bs != [] {
      ApplyKeepsNames(g, bs[..|bs| - 1]);
    }
  }

  /** Replaying bookings of distinct free seats raises the revenue by exactly
      their prices, which is how the loader rebuilds the running total. */
  lemma {:induction false} RevenueApply(g: Grid, bs: seq<Booking>)
    requires InBounds(bs, g) && FreshTargets(g, bs)
    ensures Revenue(Apply(g, bs)) == Revenue(g) + PriceSum(bs)
    decreases |bs|
  {
    if bs != [] {
      var n := |bs| - 1;
      var b := bs[n];
      var pre := bs[..n];
      RevenueApply(g, pre);
      ApplyUntouched(g, pre, b.row, b.col);
      RevenueOccupy(Apply(g, pre), b.row, b.col, b.name);
    }
  }

  /** Loading bookings of distinct seats into an empty grid gives a grid worth
      exactly the sum of their prices. */
  lemma LoadedRevenue(r: nat, c: nat, bs: seq<Booking>)
    requires InBounds(bs, EmptyGrid(r, c)) && FreshTargets(EmptyGrid(r, c), bs)
    ensures Revenue(Apply(EmptyGrid(r, c), bs)) == PriceSum(bs)
  {
    AllFreeCounts(EmptyGrid(r, c));
    RevenueApply(EmptyGrid(r, c), bs);
  }

  /** Why LoadedRevenue needs distinct seats: a seat file that lists the same
      seat twice is charged twice, while the grid holds that seat once. */
  lemma DuplicateLineOvercounts(b: Booking)
    requires b.row == 0 && b.col == 0
    ensures Revenue(Apply(EmptyGrid(1, 1), [b, b])) == SeatPrice(0)
    ensures PriceSum([b, b]) == 2 * SeatPrice(0)
  {
    var e := EmptyGrid(1, 1);
    var once := Occupy(e, 0, 0, b.name);
    assert [b, b][..1] == [b];
    assert [b][..0] == [];
    assert Apply(e, [b]) == once;
    var twice := Occupy(once, 0, 0, b.name);
    assert Apply(e, [b, b]) == twice;
    var seat := [[Seat(true, b.name)]];
    GridExt(twice, seat);
    assert seat[..0] == [] && seat[0][..0] == [];
    assert RowRevenue(seat[0], SeatPrice(0)) == SeatPrice(0);
    assert Revenue(seat) == Revenue(seat[..0]) + RowRevenue(seat[0], SeatPrice(0));
    assert PriceSum([b]) == PriceSum([b][..0]) + SeatPrice(0);
    assert PriceSum([b, b]) == PriceSum([b, b][..1]) + SeatPrice(0);
  }

  /** Replaying the row-major listing of a grid onto an empty grid of the same
      size rebuilds that grid exactly, and the replayed prices sum to its revenue:
      the grid half of the save/load round trip. */
  lemma Restore(g: Grid, r: nat, c: nat)
    requires IsGrid(g, r, c) && NamesCleared(g)
    ensures InBounds(Bookings(g), EmptyGrid(r, c))
    ensures FreshTargets(EmptyGrid(r, c), Bookings(g))
    ensures Apply(EmptyGrid(r, c), Bookings(g)) == g
    ensures PriceSum(Bookings(g)) == Revenue(g)
  {
    var e := EmptyGrid(r, c);
    var bs := Bookings(g);
    BookingsSound(g);
    BookingsRowMajor(g);
    BookingsRevenue(g);
    var h := Apply(e, bs);
    forall i, j | InGrid(h, i, j)
      ensures h[i][j] == g[i][j]
    {
      if g[i][j].taken {
        BookingsComplete(g, i, j);
        var k :| 0 <= k < |bs| && bs[k] == Booking(i, j, g[i][j].name);
        ApplyHit(e, bs, k);
      } else {
        ApplyUntouched(e, bs, i, j);
      }
    }
    GridExt(h, g);
  }
}
