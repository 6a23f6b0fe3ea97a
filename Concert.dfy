/** The reservation service: one object owning an R by C grid of seats as two
    parallel matrices (occupied flags and buyer names) and the running revenue.
    Console input arrives as method parameters and console output leaves as
    results; the seat file is a string. */
module Concert {
  import opened Pricing
  import opened SeatGrid
  import opened SeatFile

  /** The fixed admin PIN. */
  const AdminPin: string := "1234"

  /** The admin gate fails closed: only the exact PIN opens it. */
  predicate Authorized(pin: string): (r: bool)
    ensures r <==> |pin| == 4 && pin[0] == '1' && pin[1] == '2' && pin[2] == '3' && pin[3] == '4'
  {
    pin == AdminPin
  }

  /** What an attempt to buy a seat reports. */
  datatype Purchase =
    | InvalidSeat                  // row or column outside the grid
    | AlreadyTaken(holder: string) // the seat's current buyer
    | Purchased(price: nat)        // the seat is now the caller's, at this price

  /** The figures the statistics screen shows. */
  datatype Stats = Stats(total: int, booked: int, available: int, revenue: int)

  /** The admin panel's state-related choices. */
  datatype AdminCommand = ViewAll | ResetAll(confirm: char)

  datatype AdminReply = Denied | Listing(bookings: seq<Booking>) | ResetDone(cleared: bool)

  class ConcertSeatSystem {
    const rows: nat
    const cols: nat
    const seats: array2<bool>
    const names: array2<string>
    var totalRevenue: int

    /** Both matrices have the grid's size. */
    ghost predicate Shaped()
    {
      seats.Length0 == rows && seats.Length1 == cols &&
      names.Length0 == rows && names.Length1 == cols
    }

    /** The grid as a value: seat (i, j) is flag (i, j) with name (i, j). */
    ghost function Grid(): (g: Grid)
      reads seats, names
      requires Shaped()
      ensures IsGrid(g, rows, cols)
      ensures forall i, j :: 0 <= i < rows && 0 <= j < cols ==> g[i][j] == Seat(seats[i, j], names[i, j])
    {
      seq(rows, i requires 0 <= i < rows reads seats, names =>
        seq(cols, j requires 0 <= j < cols reads seats, names => Seat(seats[i, j], names[i, j])))
    }

    /** The object invariant: the right sizes, and no name on a free seat. */
    ghost predicate Valid()
      reads seats, names
    {
      Shaped() && NamesCleared(Grid())
    }

    /** The running total equals what the occupied seats are worth. */
    ghost predicate RevenueMatches()
      reads this, seats, names
      requires Shaped()
    {
      totalRevenue == Revenue(Grid())
    }

    /** Builds an empty r by c grid and loads the saved seat file into it
        ("" when there is no file yet). The revenue matches the grid when the
        file names distinct seats: LoadedRevenue. */
    constructor (r: nat, c: nat, saved: string)
      requires Decode(saved).Some? && Fits(Decode(saved).value, r, c)
      ensures Valid() && fresh(seats) && fresh(names)
      ensures rows == r && cols == c
      ensures Grid() == Apply(EmptyGrid(r, c), Decode(saved).value)
      ensures totalRevenue == PriceSum(Decode(saved).value)
    {
      rows, cols := r, c;
      seats := new bool[r, c]((i, j) => false);
      names := new string[r, c]((i, j) => "");
      totalRevenue := 0;
      new;
      GridExt(Grid(), EmptyGrid(r, c));
      LoadSeats(saved);
    }

    /** Buying seat (row, col) for `buyer`: out-of-range seats and taken seats are
        refused without any change; otherwise exactly that seat becomes the
        buyer's and the revenue grows by its price. */
    method BuySeat(row: int, col: int, buyer: string) returns (outcome: Purchase)
      requires Valid()
      modifies this, seats, names
      ensures Valid()
      ensures !(0 <= row < rows && 0 <= col < cols) ==> outcome == InvalidSeat
      ensures 0 <= row < rows && 0 <= col < cols && old(seats[row, col]) ==>
        outcome == AlreadyTaken(old(names[row, col]))
      ensures 0 <= row < rows && 0 <= col < cols && !old(seats[row, col]) ==>
        && outcome == Purchased(SeatPrice(row))
        && Grid() == Occupy(old(Grid()), row, col, buyer)
        && totalRevenue == old(totalRevenue) + SeatPrice(row)
        && Booked(Grid()) == old(Booked(Grid())) + 1
      ensures !outcome.Purchased? ==> unchanged(this, seats, names)
      ensures old(RevenueMatches()) ==> RevenueMatches()
    {
      if row < 0 || row >= rows || col < 0 || col >= cols {
        return InvalidSeat;
      }
      if seats[row, col] {
        return AlreadyTaken(names[row, col]);
      }
      ghost var before := Grid();
      var price := SeatPrice(row);
      Sell(row, col, buyer);
      RevenueOccupy(before, row, col, buyer);
      BookedOccupy(before, row, col, buyer);
      outcome := Purchased(price);
    }

    /** Sells one seat to `name`: the seat is marked taken under that name and
        its price is added to the revenue. */
    method Sell(row: nat, col: nat, name: string)
      requires Valid() && row < rows && col < cols
      modifies this, seats, names
      ensures Valid()
      ensures Grid() == Occupy(old(Grid()), row, col, name)
      ensures totalRevenue == old(totalRevenue) + SeatPrice(row)
    {
      ghost var before := Grid();
      seats[row, col] := true;
      names[row, col] := name;
      totalRevenue := totalRevenue + SeatPrice(row);
      GridExt(Grid(), Occupy(before, row, col, name));
      OccupyKeepsNames(before, row, col, name);
    }

    /** The statistics screen: all seats, booked seats, the rest, and the
        running revenue. */
    method ShowStats() returns (stats: Stats)
      requires Valid()
      ensures stats.total == rows * cols
      ensures stats.booked == Booked(Grid())
      ensures stats.available == stats.total - stats.booked && stats.available >= 0
      ensures stats.revenue == totalRevenue
    {
      ghost var g := Grid();
      var booked := 0;
      var i := 0;
      while i < rows
        invariant 0 <= i <= rows
        invariant booked == Booked(g[..i])
      {
        var j := 0;
        while j < cols
          invariant 0 <= j <= cols
          invariant booked == Booked(g[..i]) + RowBooked(g[i][..j])
        {
          RowStep(g[i], i, j);
          if seats[i, j] {
            booked := booked + 1;
          }
          j := j + 1;
        }
        GridStep(g, i);
        assert g[i][..cols] == g[i];
        i := i + 1;
      }
      assert g[..rows] == g;
      BookedBound(g, rows, cols);
      var total := rows * cols;
      stats := Stats(total, booked, total - booked, totalRevenue);
    }

    /** The admin listing: every booked seat once, with its buyer, in row-major
        order, and nothing else. */
    method ViewAllBookings() returns (list: seq<Booking>)
      requires Valid()
      ensures list == Bookings(Grid())
      ensures |list| == Booked(Grid()) && RowMajor(list)
    {
      ghost var g := Grid();
      list := [];
      var i := 0;
      while i < rows
        invariant 0 <= i <= rows
        invariant list == Bookings(g[..i])
      {
        assert Bookings(g[..i]) + RowBookings(g[i][..0], i) == Bookings(g[..i]);
        var j := 0;
        while j < cols
          invariant 0 <= j <= cols
          invariant list == Bookings(g[..i]) + RowBookings(g[i][..j], i)
        {
          RowStep(g[i], i, j);
          assert g[i][j] == Seat(seats[i, j], names[i, j]);
          if seats[i, j] {
            AppendAssoc(Bookings(g[..i]), RowBookings(g[i][..j], i), [Booking(i, j, names[i, j])]);
            list := list + [Booking(i, j, names[i, j])];
          }
          j := j + 1;
        }
        GridStep(g, i);
        assert g[i][..cols] == g[i];
        i := i + 1;
      }
      assert g[..rows] == g;
      BookingsCount(g);
      BookingsRowMajor(g);
    }

    /** The seat file's text: one line per booked seat in row-major order, that
        is the listing encoded (loading it back is DecodeEncode). */
    method SaveSeats() returns (text: string)
      requires Valid()
      ensures text == Encode(Bookings(Grid()))
    {
      ghost var g := Grid();
      text := "";
      var i := 0;
      while i < rows
        invariant 0 <= i <= rows
        invariant text == Encode(Bookings(g[..i]))
      {
        assert Bookings(g[..i]) + RowBookings(g[i][..0], i) == Bookings(g[..i]);
        var j := 0;
        while j < cols
          invariant 0 <= j <= cols
          invariant text == Encode(Bookings(g[..i]) + RowBookings(g[i][..j], i))
        {
          RowStep(g[i], i, j);
          if seats[i, j] {
            var b := Booking(i, j, names[i, j]);
            ghost var done := Bookings(g[..i]) + RowBookings(g[i][..j], i);
            EncodeSnoc(done, b);
            AppendAssoc(Bookings(g[..i]), RowBookings(g[i][..j], i), [b]);
            text := text + EncodeLine(b);
          } else {
            assert RowBookings(g[i][..j], i) + [] == RowBookings(g[i][..j], i);
          }
          j := j + 1;
        }
        GridStep(g, i);
        assert g[i][..cols] == g[i];
        i := i + 1;
      }
      assert g[..rows] == g;
    }

    /** Loading a seat file: the records are read one at a time, in file order;
        each marks its seat as the named buyer's and adds its price to the
        revenue. (When the records name distinct free seats, the revenue then
        matches the grid: RevenueApply.) */
    method LoadSeats(text: string)
      requires Valid()
      requires Decode(text).Some? && Fits(Decode(text).value, rows, cols)
      modifies this, seats, names
      ensures Valid()
      ensures Grid() == Apply(old(Grid()), Decode(text).value)
      ensures totalRevenue == old(totalRevenue) + PriceSum(Decode(text).value)
    {
      ghost var g0 := Grid();
      ghost var all := Decode(text).value;
      ghost var done: seq<Booking> := [];
      var rest := text;
      var next := ReadNext(rest);
      while next.Some?
        invariant Valid()
        invariant NextOf(rest, next)
        invariant all == done + Decode(rest).value
        invariant InBounds(done, g0)
        invariant Grid() == Apply(g0, done)
        invariant totalRevenue == old(totalRevenue) + PriceSum(done)
        decreases |rest|
      {
        ReadNextStep(all, done, rest, next);
        var b := next.value.0;
        rest := next.value.1;
        Replay(g0, done, b);
        done := done + [b];
        next := ReadNext(rest);
      }
      ReadNextEnd(all, done, rest, next);
    }

    /** One record of the loader's loop put into the grid. */
    method Replay(ghost g0: Grid, ghost done: seq<Booking>, b: Booking)
      requires Valid() && IsGrid(g0, rows, cols) && InBounds(done, g0)
      requires Grid() == Apply(g0, done) && b.row < rows && b.col < cols
      modifies this, seats, names
      ensures Valid() && InBounds(done + [b], g0) && Grid() == Apply(g0, done + [b])
      ensures totalRevenue == old(totalRevenue) + SeatPrice(b.row)
      ensures PriceSum(done + [b]) == PriceSum(done) + SeatPrice(b.row)
    {
      ApplySnoc(g0, done, b);
      Sell(b.row, b.col, b.name);
    }

    /** Resetting after the operator's confirmation ('y' or 'Y'): every seat free,
        every name empty, revenue zero. Any other answer changes nothing. */
    method ResetAllSeats(confirm: char) returns (cleared: bool)
      requires Valid()
      modifies this, seats, names
      ensures Valid()
      ensures cleared == (confirm == 'y' || confirm == 'Y')
      ensures cleared ==> Grid() == Cleared(old(Grid())) && totalRevenue == 0 && RevenueMatches()
      ensures !cleared ==> unchanged(this, seats, names)
    {
      cleared := confirm == 'y' || confirm == 'Y';
      if !cleared {
        return;
      }
      ghost var g0 := Grid();
      var i := 0;
      while i < rows
        invariant 0 <= i <= rows
        invariant forall p, q :: 0 <= p < i && 0 <= q < cols ==> !seats[p, q] && names[p, q] == ""
      {
        var j := 0;
        while j < cols
          invariant 0 <= j <= cols
          invariant forall p, q :: 0 <= p < i && 0 <= q < cols ==> !seats[p, q] && names[p, q] == ""
          invariant forall q :: 0 <= q < j ==> !seats[i, q] && names[i, q] == ""
        {
          seats[i, j] := false;
          names[i, j] := "";
          j := j + 1;
        }
        i := i + 1;
      }
      totalRevenue := 0;
      GridExt(Grid(), Cleared(g0));
      ClearedProperties(g0, rows, cols);
    }

    /** The admin panel behind the PIN: a wrong PIN is refused with no effect;
        the right one runs the chosen command. */
    method RunAdminMode(pin: string, command: AdminCommand) returns (reply: AdminReply)
      requires Valid()
      modifies this, seats, names
      ensures Valid()
      ensures !Authorized(pin) ==> reply == Denied && unchanged(this, seats, names)
      ensures Authorized(pin) && command.ViewAll? ==>
        reply == Listing(Bookings(Grid())) && unchanged(this, seats, names)
      ensures Authorized(pin) && command.ResetAll? ==>
        && reply == ResetDone(command.confirm == 'y' || command.confirm == 'Y')
        && (reply.cleared ==> Grid() == Cleared(old(Grid())) && totalRevenue == 0)
        && (!reply.cleared ==> unchanged(this, seats, names))
    {
      if !Authorized(pin) {
        return Denied;
      }
      match command
      case ViewAll =>
        var list := ViewAllBookings();
        reply := Listing(list);
      case ResetAll(confirm) =>
        var cleared := ResetAllSeats(confirm);
        reply := ResetDone(cleared);
    }

    /** Ending the session and starting the next: the seat file written now,
        loaded into a new system of the same size, gives back the same seats,
        the same names and a revenue recomputed to match them. */
    method Restart() returns (next: ConcertSeatSystem)
      requires Valid()
      requires forall i, j :: 0 <= i < rows && 0 <= j < cols ==> '\n' !in names[i, j]
      ensures fresh(next) && next.Valid()
      ensures next.rows == rows && next.cols == cols
      ensures next.Grid() == old(Grid())
      ensures next.totalRevenue == old(Revenue(Grid())) && next.RevenueMatches()
    {
      ghost var g := Grid();
      var text := SaveSeats();
      SaveLoad(g, rows, cols);
      next := new ConcertSeatSystem(rows, cols, text);
    }
  }
}
