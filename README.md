# Concert seat reservation, modelled in Dafny

This project models the reservation core of `ConcertSeatSystem`. The venue is a
fixed grid of R rows by C columns. The system keeps it in two parallel matrices:
an "occupied" flag and a buyer name for every seat, with a running revenue
beside them. The model covers:

- pricing by row: VIP rows 0-2 at $60, Regular rows 3-6 at $40, Budget rows from 7 on at $20;
- buying a seat, with a bounds check and a taken check;
- the statistics screen;
- the admin listing of booked seats in row-major order;
- the confirmed reset;
- the PIN-gated admin panel;
- saving the seats to the line format `"<row> <col> <name>\n"`, and loading them back the
  way the C++ stream reads them (`>>` twice, `getline`, then `substr(1)`).

Layout, following the program's structure:

- `Pricing.dfy` (module `Pricing`): the pure price and tier functions of a row.
- `SeatGrid.dfy` (module `SeatGrid`): the seat grid as a value. It defines the occupied
  count, the revenue a grid is worth, the row-major booking list, one purchase (`Occupy`),
  the reset (`Cleared`) and, as the loader does, replaying bookings onto a grid (`Apply`).
  It also holds the lemmas that connect these.
- `SeatFile.dfy` (module `SeatFile`): the text of the seat file. `Encode` is what saving
  writes. `ReadRecord`/`Decode` is what the loader reads: `>>` skips white space and then
  takes an optional '+' or '-' and decimal digits, `getline` takes the rest of the line, and `substr(1)` drops one
  character. The module ends with the round-trip proofs.
- `Concert.dfy` (module `Concert`): the class `ConcertSeatSystem`. Its fields are the two
  matrices (`array2<bool>` and `array2<string>`) and the revenue. Its methods mutate them in
  the source's nested row-major loops.
  - Each method is specified through the ghost view `Grid()` of the matrices, tying it to
    the `SeatGrid` and `SeatFile` functions.
  - The object invariant `Valid()` is: the matrices have the grid's size, and every free
    seat has the empty name.
  - `RevenueMatches()` says that the revenue is what the occupied seats are worth.

Money is integer dollars, since every price is a whole number of dollars. Console input
(row, column, buyer name, PIN, menu choice, reset confirmation) arrives as method
parameters. Console output leaves as results (`Purchase`, `Stats`, booking lists,
`AdminReply`). The seat file is a string, and a missing file is the empty string.

## Model

| member | source | states |
|---|---|---|
| Pricing.SeatPrice | ConcertSeatSystem.cpp:29-33 | every int row, negative ones included, has a price, and it is one of 60, 40 or 20 |
| Pricing.SeatTier | ConcertSeatSystem.cpp:35-39 | every int row has a tier label, and it is one of "VIP", "Regular" or "Budget" |
| Pricing.PriceMatchesTier | ConcertSeatSystem.cpp:29-39 | price and tier never disagree: the row's price is the listed price of its tier, and each tier label goes with exactly one price |
| Pricing.PriceNonIncreasing | ConcertSeatSystem.cpp:29-33 | a seat further back never costs more than one further forward |
| SeatGrid.EmptyGrid | ConcertSeatSystem.cpp:19-21 | the initial grid has the requested size, every seat free with the empty name |
| SeatGrid.AllFreeCounts | ConcertSeatSystem.cpp:19-21 | an all-free grid has no booked seat and is worth nothing, matching the initial revenue 0 |
| SeatGrid.Occupy | ConcertSeatSystem.cpp:83-84 | a purchase keeps the shape, makes that seat taken under the buyer's name and leaves every other seat as it was |
| SeatGrid.OccupyKeepsNames | ConcertSeatSystem.cpp:83-84 | a purchase keeps "a free seat has the empty name", whatever the buyer's name, the empty one included |
| SeatGrid.BookedOccupy | ConcertSeatSystem.cpp:83 | buying a free seat raises the booked count by exactly one |
| SeatGrid.RevenueOccupy | ConcertSeatSystem.cpp:82-85 | buying a free seat raises what the grid is worth by exactly that row's price |
| SeatGrid.BookedBound | ConcertSeatSystem.cpp:91-101 | the booked count never exceeds rows times columns, so the available count is never negative |
| SeatGrid.Cleared | ConcertSeatSystem.cpp:197-201 | the reset keeps the shape and frees every seat with the empty name |
| SeatGrid.ClearedProperties | ConcertSeatSystem.cpp:197-202 | the reset grid is the empty grid of that size, with no booked seat and no revenue, keeps the name invariant, and resetting twice equals resetting once |
| SeatGrid.BookingsCount | ConcertSeatSystem.cpp:183-189 | the listing has exactly one entry per booked seat |
| SeatGrid.BookingsSound | ConcertSeatSystem.cpp:185-188 | every listed entry is a taken seat of the grid, with that seat's buyer |
| SeatGrid.BookingsComplete | ConcertSeatSystem.cpp:185-188 | every taken seat of the grid is listed with its buyer |
| SeatGrid.BookingsRowMajor | ConcertSeatSystem.cpp:185-187 | the listing is strictly increasing in row-major order, so no seat is listed twice |
| SeatGrid.BookingsRevenue | ConcertSeatSystem.cpp:185-188 | the prices of the listed seats sum to what the grid is worth |
| SeatGrid.Apply | ConcertSeatSystem.cpp:122-123 | replaying in-range records onto a grid keeps its shape |
| SeatGrid.ApplyUntouched | ConcertSeatSystem.cpp:119-123 | a seat that no loaded record names keeps its previous value |
| SeatGrid.ApplyHit | ConcertSeatSystem.cpp:119-123 | a seat named by a loaded record that no later record names ends up taken under that record's name |
| SeatGrid.ApplyKeepsNames | ConcertSeatSystem.cpp:122-123 | loading records keeps "a free seat has the empty name" |
| SeatGrid.RevenueApply | ConcertSeatSystem.cpp:122-124 | loading records of distinct free seats raises what the grid is worth by exactly the sum of their prices, the amount the loader adds to the revenue |
| SeatGrid.LoadedRevenue | ConcertSeatSystem.cpp:19-23 | loading records of distinct seats into the new empty grid gives a grid worth exactly the revenue the loader accumulated |
| SeatGrid.DuplicateLineOvercounts | ConcertSeatSystem.cpp:119-124 | a file listing one seat twice is charged twice while the grid holds the seat once, which is why LoadedRevenue needs distinct seats |
| SeatGrid.Restore | ConcertSeatSystem.cpp:105-126 | replaying a grid's row-major listing onto an empty grid of its size rebuilds the grid exactly; the listing names distinct free seats, and its prices sum to the grid's worth |
| SeatFile.NatToDigits | ConcertSeatSystem.cpp:110 | `<<` of a non-negative int writes a non-empty run of decimal digits whose value is that int |
| SeatFile.SkipSpace | ConcertSeatSystem.cpp:119 | `>>` skips only white space, and what is left does not start with white space |
| SeatFile.DigitSpan | ConcertSeatSystem.cpp:119 | `>>` into an int takes the longest run of leading digits |
| SeatFile.ReadInt | ConcertSeatSystem.cpp:119 | a successful `>>` into an int (optional sign, then digits) consumes at least one character |
| SeatFile.LineLength | ConcertSeatSystem.cpp:120 | `getline` stops at the first newline, or at the end of the text |
| SeatFile.GetLine | ConcertSeatSystem.cpp:120 | the line `getline` returns holds no newline, and what it leaves is no longer than the text minus that line |
| SeatFile.ReadRecord | ConcertSeatSystem.cpp:119-121 | one turn of the loader's loop that reads a record consumes at least one character and yields a name without a newline |
| SeatFile.Decode | ConcertSeatSystem.cpp:119-125 | a file that loads yields no more records than it has characters, and no loaded name holds a newline |
| SeatFile.DecodeEmpty | ConcertSeatSystem.cpp:119 | an empty file loads no records |
| SeatFile.ReadNext | ConcertSeatSystem.cpp:119-121 | on a loadable file, one turn yields the first record still to come and the text after it, or reports the end exactly when no record is left |
| SeatFile.ReadIntOf | ConcertSeatSystem.cpp:110-119 | `>>` reads back exactly the number `<<` wrote, after any white space, stopping at the first non-digit |
| SeatFile.ReadSignedOf | ConcertSeatSystem.cpp:119 | after any white space, `>>` reads a '+' or '-' followed by digits as that number, negated for '-', and stops at the first non-digit |
| SeatFile.ReadOptSigned | ConcertSeatSystem.cpp:119 | `>>` reads a number written with or without a sign |
| SeatFile.ReadSignedLine | ConcertSeatSystem.cpp:119-122 | a record line whose row and column carry signs reads as the unsigned line, except that a negative row or column (one that would index outside the matrices) is a failed load |
| SeatFile.PlusSignedRow | ConcertSeatSystem.cpp:119-123 | the file "+3 4 Bob\n" loads as seat (3, 4) for Bob |
| SeatFile.NegativeZeroRow | ConcertSeatSystem.cpp:119-123 | the file "-0 +1 A\n" loads as seat (0, 1) for A |
| SeatFile.NegativeRow | ConcertSeatSystem.cpp:119-122 | the file "-1 0 A\n", whose row would index outside the matrices, does not load |
| SeatFile.SignWithoutDigits | ConcertSeatSystem.cpp:119 | in the file "+ 3 4 A\n" the first extraction fails, so the loop ends with nothing loaded |
| SeatFile.GetLineOf | ConcertSeatSystem.cpp:110-120 | `getline` returns a written name line without its newline and resumes after it |
| SeatFile.ReadEncodedLine | ConcertSeatSystem.cpp:110-121 | reading a saved line gives back the booking it was written from, with the separating space stripped, whatever follows it |
| SeatFile.EncodeLine | ConcertSeatSystem.cpp:110 | a saved line ends with a newline, and holds no other one when the name holds none |
| SeatFile.Encode | ConcertSeatSystem.cpp:107-110 | the file is empty exactly when no booking is written, and otherwise ends with a newline |
| SeatFile.EncodeAppend | ConcertSeatSystem.cpp:107-110 | the file for two lists one after the other is the two files one after the other |
| SeatFile.DecodeEncode | ConcertSeatSystem.cpp:105-126 | loading what was saved gives back the same bookings in the same order, when no name holds a newline |
| SeatFile.SaveLoad | ConcertSeatSystem.cpp:105-126 | the saved file of a grid reads back as its listing, which fits the grid, names distinct free seats, rebuilds the grid on an empty one and is worth its revenue |
| Concert.Authorized | ConcertSeatSystem.cpp:157 | the admin gate opens exactly for the four characters 1, 2, 3, 4 and for no other text, longer, shorter or empty |
| Concert.ConcertSeatSystem.constructor | ConcertSeatSystem.cpp:19-23 | a new system has the requested size and the name invariant; its grid is the saved records loaded into the empty grid, and its revenue is their price sum |
| Concert.ConcertSeatSystem.BuySeat | ConcertSeatSystem.cpp:62-89 | out of range: refused, nothing changes. Taken: refused with the current buyer's name, nothing changes. Otherwise exactly that seat becomes the buyer's, the revenue grows by the row's price and the booked count by one. The name invariant is kept, and so is revenue consistency when it held before |
| Concert.ConcertSeatSystem.Sell | ConcertSeatSystem.cpp:82-85 | the three writes of a sale: the grid becomes the purchase of that seat and the revenue grows by its price |
| Concert.ConcertSeatSystem.ShowStats | ConcertSeatSystem.cpp:91-103 | total is rows times columns, booked is the number of taken seats, available is the difference and never negative, revenue is the running total |
| Concert.ConcertSeatSystem.ViewAllBookings | ConcertSeatSystem.cpp:183-189 | the listing is the grid's row-major booking list, one entry per booked seat, in strictly increasing row-major order |
| Concert.ConcertSeatSystem.SaveSeats | ConcertSeatSystem.cpp:105-111 | the saved text is the encoding of the row-major booking list |
| Concert.ConcertSeatSystem.LoadSeats | ConcertSeatSystem.cpp:113-126 | on a loadable, in-range file, the grid becomes the records replayed in file order, the revenue grows by their price sum, and the name invariant is kept |
| Concert.ConcertSeatSystem.Replay | ConcertSeatSystem.cpp:122-124 | one loaded record marks its seat and adds its price |
| Concert.ConcertSeatSystem.ResetAllSeats | ConcertSeatSystem.cpp:191-205 | with 'y' or 'Y' every seat is freed with the empty name and the revenue is 0, consistent with the grid; any other answer changes nothing |
| Concert.ConcertSeatSystem.RunAdminMode | ConcertSeatSystem.cpp:152-181 | a PIN other than "1234" is refused with no change; the right PIN runs the listing (no change) or the confirmed reset |
| Concert.ConcertSeatSystem.Restart | ConcertSeatSystem.cpp:19-27 | saving at the end of a session and loading the file into a new system of the same size gives the same flags and names, and a revenue recomputed to match them |

## Left out

- `displaySeats` (lines 41-59) only prints the seat map, with ANSI colours and tier labels, so it is not modelled.
- The `run` menu loop (lines 128-150) and the admin menu loop (lines 162-180) are not modelled. Each call of `RunAdminMode` runs one admin command. Prompts, `cin.ignore` and every message printed are left out.
- File system access is not modelled:
  - the opening of `seats.txt` and `report.txt`, and the `if (!file) return` branch (a missing file is the empty text);
  - the destructor's save (lines 25-27), which appears only inside `Restart`;
  - the wipe of `seats.txt` during a reset (line 203).
- `exportReport` (lines 207-219) is file output plus float formatting. The records it writes are the list `ViewAllBookings` returns.
- Money is integer dollars, not `double`. The prices 60, 40 and 20 and their sums are exact in a double far beyond any grid size, so nothing is lost. `fixed`/`setprecision(2)` formatting is left out.
- Strings are byte sequences: a Dafny `char` stands for one byte of the file and of `std::string`, as `>>`, `getline` and `substr(1)` treat them. A multi-byte character such as an accented letter is several `char`s, and the model drops only its first byte where `substr(1)` does. Character encodings are not modelled.
- Integers are unbounded: `rows * cols` cannot overflow in the model, and it can in C++ `int`.
- The constructor's default size of 10 by 10 is not modelled; the size is always given explicitly.
- Concert.ConcertSeatSystem.LoadSeats requires that the file parse and that every record lie inside the grid. The C++ loader does not bounds-check loaded indices (line 122), so an out-of-range record is undefined behaviour.
  - `>>` into an int takes an optional sign, and so does the reader: "+3" is 3 and "-0" is 0. A negative row or column would index outside the matrices in C++, so the reader reports that line as a failed load and the requirement excludes it.
  - A number too large for `int` fails the extraction in C++; the model reads it, and the in-range requirement excludes it.
  - A record can leave nothing for `getline` after the column. In the middle of the file (the line ends right after the column), `getline` returns the empty string and `substr(1)` throws. At the very end of the file, `getline` fails and leaves `name` holding the previous record's name. `substr(1)` then drops that name's first character and the seat is booked under the rest. It throws only when that name is empty, as before the first record. The reader reports both cases as a failed load, and the requirement excludes them.
- Concert.ConcertSeatSystem.constructor does not state in its own contract that the revenue matches the grid. That holds when the file names distinct seats, and it is the separate lemma `SeatGrid.LoadedRevenue`. `Restart` gets the match for the file it saves itself from `SeatFile.SaveLoad`. A file that repeats a seat is charged twice, as `SeatGrid.DuplicateLineOvercounts` shows.
- Concert.ConcertSeatSystem.LoadSeats likewise leaves revenue consistency to `SeatGrid.RevenueApply`.
- Concert.ConcertSeatSystem.ViewAllBookings states the listing as the grid's booking list. That each entry is a taken seat with its buyer, and that every taken seat is listed, are the lemmas `SeatGrid.BookingsSound` and `SeatGrid.BookingsComplete` about that list.
- Concert.ConcertSeatSystem.SaveSeats states the text it writes. That loading this text gives the same bookings back is the lemma `SeatFile.DecodeEncode`.
- Concert.ConcertSeatSystem.Restart requires that no buyer name hold a newline. Names typed at the console come from `getline` and cannot hold one.
- Concert.ConcertSeatSystem.BuySeat takes row and column as ints. A failed `cin >> row >> col` on non-numeric input and the prompt for the name are left out.
