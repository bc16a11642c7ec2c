/** The backfill of human-readable references: a stem, a hyphen and a zero-padded row number within
    its partition. */
module References {
  import opened Collections
  import opened Decimal

  datatype Table = Inspections | MaintenanceIssues | Tenants | Units | RentSchedules

  /** `period` is the text that the query partitions by: the year, or year and month; tenants and units
      are not partitioned. */
  datatype Row = Row(period: string, created: int, reference: Option<string>)

  function Tag(t: Table): string
  {
    match t
    case Inspections => "INS-"
    case MaintenanceIssues => "MNT-"
    case Tenants => "TEN-"
    case Units => "UNIT-"
    case RentSchedules => "RS-"
  }

  predicate Partitioned(t: Table) { t != Tenants && t != Units }

  function Stem(t: Table, period: string): string
  {
    if Partitioned(t) then Tag(t) + (period + "-") else Tag(t)
  }

  lemma SameMiddle(a: string, x: string, y: string, z: string)
    requires a + (x + z) == a + (y + z)
    ensures x == y
  {
    var s := a + (x + z);
    assert s[|a|..] == x + z && s[|a|..] == y + z;
    assert (x + z)[..|x|] == x && (y + z)[..|y|] == y;
  }

  /** Equal stems are equal partitions. */
  lemma StemsArePartitions(t: Table, p: string, q: string)
    ensures Stem(t, p) == Stem(t, q) <==> Partitioned(t) ==> p == q
  {
    if Partitioned(t) && Stem(t, p) == Stem(t, q) { SameMiddle(Tag(t), p, q, "-"); }
  }

  function Zeros(n: nat): string { if n == 0 then "" else "0" + Zeros(n - 1) }

  /** PostgreSQL's `LPAD(s, width, '0')`, which also cuts longer text down to the width. */
  function Lpad(s: string, width: nat): string
  {
    if |s| >= width then s[..width] else Zeros(width - |s|) + s
  }

  lemma {:induction false} ZerosAreZero(n: nat, s: string)
    requires AllDigits(s)
    ensures AllDigits(Zeros(n) + s) && |Zeros(n)| == n
    ensures Value(Zeros(n) + s) == Value(s)
    decreases n, |s|
  {
    var t := Zeros(n) + s;
    if n > 0 {
      ZerosAreZero(n - 1, s);
      if s != "" {
        var shorter := s[..|s| - 1];
        ZerosAreZero(n, shorter);
        assert t[..|t| - 1] == Zeros(n) + shorter && t[|t| - 1] == s[|s| - 1];
      } else {
        ZerosValue(n);
        assert t == Zeros(n);
      }
    } else {
      assert t == s;
    }
  }

  lemma {:induction false} ZerosValue(n: nat)
    ensures AllDigits(Zeros(n)) && Value(Zeros(n)) == 0 && |Zeros(n)| == n
  {
    if n > 0 {
      ZerosValue(n - 1);
      ZerosEnd(n);
    }
  }

  lemma {:induction false} ZerosEnd(n: nat)
    requires n > 0
    ensures |Zeros(n)| == n && Zeros(n)[n - 1] == '0' && Zeros(n)[..n - 1] == Zeros(n - 1)
  {
    if n > 1 {
      ZerosEnd(n - 1);
      assert Zeros(n) == "0" + Zeros(n - 1);
      assert Zeros(n)[..n - 1] == "0" + Zeros(n - 1)[..n - 2];
    }
  }

  function Padded(n: nat): string { Lpad(Text(n), 4) }

  /** Four characters always; and up to 9999 they still denote the number. */
  lemma PaddedDenotes(n: nat)
    ensures |Padded(n)| == 4
    ensures n <= 9999 ==> AllDigits(Padded(n)) && Value(Padded(n)) == n
  {
    TextDenotes(n);
    assert Pow10(4) == 10 * Pow10(3) == 100 * Pow10(2) == 10000;
    TextLength(n, 4);
    if |Text(n)| < 4 {
      ZerosAreZero(4 - |Text(n)|, Text(n));
    } else if n <= 9999 {
      assert Text(n)[..4] == Text(n);
    }
  }

  /** Row 10000 is cut down to the number of row 1000. */
  lemma TenThousandIsCut()
    ensures Padded(10000) == Padded(1000)
  {
    assert Text(1000) == Text(100) + "0" && Text(100) == Text(10) + "0" && Text(10) == "10";
    assert Text(10000) == Text(1000) + "0";
  }

  // ----- ROW_NUMBER -----

  /** The rows that the query ranks: those without a reference, in the partition of row i. */
  function Peers(t: Table, rows: seq<Row>, i: nat): set<nat>
    requires i < |rows|
  {
    set j: nat | j < |rows| && rows[j].reference.None? && Stem(t, rows[j].period) == Stem(t, rows[i].period)
  }

  /** `ORDER BY created_at`; rows created at the same time are numbered in table order. */
  predicate Earlier(rows: seq<Row>, j: nat, i: nat)
    requires j < |rows| && i < |rows|
  {
    rows[j].created < rows[i].created || (rows[j].created == rows[i].created && j < i)
  }

  function RowNumber(t: Table, rows: seq<Row>, i: nat): nat
    requires i < |rows|
  {
    1 + |set j | j in Peers(t, rows, i) && Earlier(rows, j, i)|
  }

  lemma PeersShared(t: Table, rows: seq<Row>, i: nat, j: nat)
    requires i < |rows| && j in Peers(t, rows, i)
    ensures Peers(t, rows, j) == Peers(t, rows, i)
  {
  }

  lemma EarlierHasSmallerNumber(t: Table, rows: seq<Row>, j: nat, i: nat)
    requires i < |rows| && j in Peers(t, rows, i) && Earlier(rows, j, i)
    ensures RowNumber(t, rows, j) < RowNumber(t, rows, i)
  {
    PeersShared(t, rows, i, j);
    var before_j := set k | k in Peers(t, rows, i) && Earlier(rows, k, j);
    var before_i := set k | k in Peers(t, rows, i) && Earlier(rows, k, i);
    assert before_j + {j} <= before_i;
    SubsetCardinality(before_j + {j}, before_i);
  }

  lemma NumbersDistinct(t: Table, rows: seq<Row>, i: nat, j: nat)
    requires i < |rows| && j in Peers(t, rows, i) && i in Peers(t, rows, i) && i != j
    ensures RowNumber(t, rows, i) != RowNumber(t, rows, j)
  {
    PeersShared(t, rows, i, j);
    if Earlier(rows, i, j) {
      EarlierHasSmallerNumber(t, rows, i, j);
    } else {
      EarlierHasSmallerNumber(t, rows, j, i);
    }
  }

  /** Two rows are filled from the same partition: neither has a reference, and the table is not partitioned
      or they are of the same period. */
  predicate SamePartition(t: Table, rows: seq<Row>, i: nat, j: nat)
    requires i < |rows| && j < |rows|
  {
    rows[i].reference == None && rows[j].reference == None
    && ((t != Tenants && t != Units) ==> rows[i].period == rows[j].period)
  }

  /** Older rows of a partition have smaller numbers. */
  lemma OlderRowsFirst(t: Table, rows: seq<Row>, i: nat, j: nat)
    requires i < |rows| && j < |rows| && SamePartition(t, rows, i, j) && rows[i].created < rows[j].created
    ensures RowNumber(t, rows, i) < RowNumber(t, rows, j)
  {
    StemsArePartitions(t, rows[i].period, rows[j].period);
    EarlierHasSmallerNumber(t, rows, i, j);
  }

  lemma NumberBound(t: Table, rows: seq<Row>, i: nat)
    requires i < |rows| && i in Peers(t, rows, i)
    ensures 1 <= RowNumber(t, rows, i) <= |Peers(t, rows, i)|
  {
    var before := set j | j in Peers(t, rows, i) && Earlier(rows, j, i);
    SubsetCardinality(before + {i}, Peers(t, rows, i));
  }

  lemma {:induction false} ImageCardinality(s: set<nat>, f: nat -> int)
    requires forall x, y | x in s && y in s && x != y :: f(x) != f(y)
    ensures |set x | x in s :: f(x)| == |s|
  {
    if s != {} {
      var x :| x in s;
      var rest := s - {x};
      ImageCardinality(rest, f);
      assert (set y | y in s :: f(y)) == (set y | y in rest :: f(y)) + {f(x)};
    }
  }

  /** Within a partition of n rows the numbers are exactly 1 to n. */
  lemma NumbersFill(t: Table, rows: seq<Row>, i: nat, n: nat)
    requires i < |rows| && 1 <= n <= |Peers(t, rows, i)|
    ensures exists j :: j in Peers(t, rows, i) && RowNumber(t, rows, j) == n
  {
    var peers := Peers(t, rows, i);
    var number := (j: nat) => if j < |rows| then RowNumber(t, rows, j) else 0;
    forall x, y | x in peers && y in peers && x != y ensures number(x) != number(y) {
      PeersShared(t, rows, i, x);
      NumbersDistinct(t, rows, x, y);
    }
    ImageCardinality(peers, number);
    var image := set j | j in peers :: number(j);
    forall m | m in image ensures m in Range(1, |peers| + 1) {
      var j :| j in peers && number(j) == m;
      PeersShared(t, rows, i, j);
      NumberBound(t, rows, j);
    }
    SubsetCardinality(image, Range(1, |peers| + 1));
    assert n in image;
  }

  // ----- The references -----

  function Reference(t: Table, rows: seq<Row>, i: nat): string
    requires i < |rows|
  {
    Stem(t, rows[i].period) + Padded(RowNumber(t, rows, i))
  }

  lemma ReferenceParts(t: Table, rows: seq<Row>, i: nat, j: nat)
    requires i < |rows| && j < |rows|
    ensures Reference(t, rows, i) == Reference(t, rows, j)
            <==> Stem(t, rows[i].period) == Stem(t, rows[j].period)
                 && Padded(RowNumber(t, rows, i)) == Padded(RowNumber(t, rows, j))
  {
    PaddedDenotes(RowNumber(t, rows, i));
    PaddedDenotes(RowNumber(t, rows, j));
    var a, b := Reference(t, rows, i), Reference(t, rows, j);
    var s, u := Stem(t, rows[i].period), Stem(t, rows[j].period);
    assert a[..|a| - 4] == s && a[|a| - 4..] == Padded(RowNumber(t, rows, i));
    assert b[..|b| - 4] == u && b[|b| - 4..] == Padded(RowNumber(t, rows, j));
  }

  /** The backfilled references do not repeat one another. */
  ghost predicate AllDistinct(t: Table, rows: seq<Row>)
  {
    forall i, j | 0 <= i < |rows| && 0 <= j < |rows| && rows[i].reference.None? && rows[j].reference.None?
                  && Reference(t, rows, i) == Reference(t, rows, j) :: i == j
  }

  ghost predicate SmallPartitions(t: Table, rows: seq<Row>)
  {
    forall i | 0 <= i < |rows| :: |Peers(t, rows, i)| <= 9999
  }

  lemma SmallPartitionsDistinct(t: Table, rows: seq<Row>)
    requires SmallPartitions(t, rows)
    ensures AllDistinct(t, rows)
  {
    forall i, j | 0 <= i < |rows| && 0 <= j < |rows| && rows[i].reference.None? && rows[j].reference.None?
                  && Reference(t, rows, i) == Reference(t, rows, j) ensures i == j {
      ReferenceParts(t, rows, i, j);
      assert i in Peers(t, rows, i) && j in Peers(t, rows, i);
      PeersShared(t, rows, i, j);
      NumberBound(t, rows, i);
      NumberBound(t, rows, j);
      PaddedDenotes(RowNumber(t, rows, i));
      PaddedDenotes(RowNumber(t, rows, j));
      if i != j { NumbersDistinct(t, rows, i, j); }
    }
  }

  lemma LargePartitionClashes(t: Table, rows: seq<Row>, i: nat)
    requires i < |rows| && |Peers(t, rows, i)| >= 10000
    ensures !AllDistinct(t, rows)
  {
    NumbersFill(t, rows, i, 1000);
    NumbersFill(t, rows, i, 10000);
    var j :| j in Peers(t, rows, i) && RowNumber(t, rows, j) == 1000;
    var k :| k in Peers(t, rows, i) && RowNumber(t, rows, k) == 10000;
    TenThousandIsCut();
    ReferenceParts(t, rows, j, k);
  }

  /** On any table, the backfilled references are pairwise distinct exactly if no partition has more than
      9999 rows to fill. */
  lemma ReferencesDistinctIff(t: Table, rows: seq<Row>)
    ensures AllDistinct(t, rows) <==> SmallPartitions(t, rows)
  {
    if SmallPartitions(t, rows) {
      SmallPartitionsDistinct(t, rows);
    } else {
      var i :| 0 <= i < |rows| && |Peers(t, rows, i)| > 9999;
      LargePartitionClashes(t, rows, i);
    }
  }

  // ----- The table after the UPDATE, and its unique index -----

  /** A row after the UPDATE: one with a reference keeps it. */
  function Filled(t: Table, rows: seq<Row>, i: nat): Row
    requires i < |rows|
  {
    if rows[i].reference.Some? then rows[i] else rows[i].(reference := Some(Reference(t, rows, i)))
  }

  function FilledAll(t: Table, rows: seq<Row>): seq<Row>
  {
    seq(|rows|, i requires 0 <= i < |rows| => Filled(t, rows, i))
  }

  /** `CREATE UNIQUE INDEX ... WHERE reference IS NOT NULL` succeeds. */
  ghost predicate Indexable(rows: seq<Row>)
  {
    forall i, j | 0 <= i < |rows| && 0 <= j < |rows| && rows[i].reference.Some?
                  && rows[i].reference == rows[j].reference :: i == j
  }

  /** Is r one of the references that the partitions to fill call for: their stem and a number from 1 to
      their size? */
  ghost predicate CalledFor(t: Table, rows: seq<Row>, r: string)
  {
    exists i: nat, n: nat :: i < |rows| && 1 <= n <= |Peers(t, rows, i)| && r == Stem(t, rows[i].period) + Padded(n)
  }

  ghost predicate NoneCalledFor(t: Table, rows: seq<Row>)
  {
    forall i | 0 <= i < |rows| && rows[i].reference.Some? :: !CalledFor(t, rows, rows[i].reference.value)
  }

  /** What the partitions call for is what the backfill gives. */
  lemma CalledForIsGiven(t: Table, rows: seq<Row>, r: string)
    ensures CalledFor(t, rows, r) <==>
            exists i :: 0 <= i < |rows| && rows[i].reference.None? && Reference(t, rows, i) == r
  {
    if i: nat, n: nat :| i < |rows| && 1 <= n <= |Peers(t, rows, i)| && r == Stem(t, rows[i].period) + Padded(n) {
      NumbersFill(t, rows, i, n);
      var j :| j in Peers(t, rows, i) && RowNumber(t, rows, j) == n;
      assert Reference(t, rows, j) == r;
    }
    if i :| 0 <= i < |rows| && rows[i].reference.None? && Reference(t, rows, i) == r {
      assert i in Peers(t, rows, i);
      NumberBound(t, rows, i);
    }
  }

  /** Rows i and j of the table after the UPDATE do not stand in each other's way. */
  ghost predicate Apart(t: Table, rows: seq<Row>, i: nat, j: nat)
    requires i < |rows| && j < |rows|
  {
    Filled(t, rows, i).reference != Filled(t, rows, j).reference || i == j
  }

  ghost predicate AllApart(t: Table, rows: seq<Row>)
  {
    forall i, j | 0 <= i < |rows| && 0 <= j < |rows| :: Apart(t, rows, i, j)
  }

  lemma IndexableApart(t: Table, rows: seq<Row>)
    ensures Indexable(FilledAll(t, rows)) <==> AllApart(t, rows)
  {
    var after := FilledAll(t, rows);
    assert forall i | 0 <= i < |rows| :: after[i] == Filled(t, rows, i) && after[i].reference.Some?;
    if Indexable(after) {
      forall i, j | 0 <= i < |rows| && 0 <= j < |rows| ensures Apart(t, rows, i, j) {
        assert after[i].reference == after[j].reference ==> i == j;
      }
    }
    if AllApart(t, rows) {
      forall i, j | 0 <= i < |rows| && 0 <= j < |rows| && after[i].reference == after[j].reference ensures i == j {
        assert Apart(t, rows, i, j);
      }
    }
  }

  lemma ApartWithin(t: Table, rows: seq<Row>)
    requires AllApart(t, rows)
    ensures Indexable(rows) && AllDistinct(t, rows)
  {
    forall i, j | 0 <= i < |rows| && 0 <= j < |rows| && rows[i].reference.None? && rows[j].reference.None?
                  && Reference(t, rows, i) == Reference(t, rows, j) ensures i == j {
      assert Apart(t, rows, i, j);
    }
    forall i, j | 0 <= i < |rows| && 0 <= j < |rows| && rows[i].reference.Some?
                  && rows[i].reference == rows[j].reference ensures i == j {
      assert Apart(t, rows, i, j);
    }
  }

  lemma ApartAcross(t: Table, rows: seq<Row>)
    requires AllApart(t, rows)
    ensures NoneCalledFor(t, rows)
  {
    forall i | 0 <= i < |rows| && rows[i].reference.Some? ensures !CalledFor(t, rows, rows[i].reference.value) {
      CalledForIsGiven(t, rows, rows[i].reference.value);
      forall j | 0 <= j < |rows| && rows[j].reference.None? ensures Reference(t, rows, j) != rows[i].reference.value {
        assert Apart(t, rows, i, j);
      }
    }
  }

  lemma NotCalledFor(t: Table, rows: seq<Row>, i: nat, j: nat)
    requires i < |rows| && j < |rows| && rows[i].reference.Some? && rows[j].reference.None? && NoneCalledFor(t, rows)
    ensures Apart(t, rows, i, j) && Apart(t, rows, j, i)
  {
    CalledForIsGiven(t, rows, rows[i].reference.value);
  }

  lemma ApartWhen(t: Table, rows: seq<Row>)
    requires Indexable(rows) && AllDistinct(t, rows) && NoneCalledFor(t, rows)
    ensures AllApart(t, rows)
  {
    forall i, j | 0 <= i < |rows| && 0 <= j < |rows| ensures Apart(t, rows, i, j) {
      if rows[i].reference.Some? && rows[j].reference.None? {
        NotCalledFor(t, rows, i, j);
      } else if rows[i].reference.None? && rows[j].reference.Some? {
        NotCalledFor(t, rows, j, i);
      }
    }
  }

  /** On any table, some of whose rows may have references already, the unique index can be built after
      the backfill exactly if the references that were there are distinct, no partition has more than 9999
      rows to fill, and none of the references that were there is one that a partition calls for. */
  lemma IndexBuildsIff(t: Table, rows: seq<Row>)
    ensures Indexable(FilledAll(t, rows)) <==> Indexable(rows) && SmallPartitions(t, rows) && NoneCalledFor(t, rows)
  {
    IndexableApart(t, rows);
    ReferencesDistinctIff(t, rows);
    if AllApart(t, rows) {
      ApartWithin(t, rows);
      ApartAcross(t, rows);
    }
    if Indexable(rows) && AllDistinct(t, rows) && NoneCalledFor(t, rows) { ApartWhen(t, rows); }
  }

  /** A reference that is already there can be the one that the backfill gives to another row, however
      small the partitions. */
  lemma EarlierReferenceClashes()
    ensures var rows := [Row("", 0, Some("TEN-0001")), Row("", 1, None)];
            Indexable(rows) && SmallPartitions(Tenants, rows) && !Indexable(FilledAll(Tenants, rows))
  {
    var rows := [Row("", 0, Some("TEN-0001")), Row("", 1, None)];
    assert Peers(Tenants, rows, 0) == {1} == Peers(Tenants, rows, 1);
    PeersShared(Tenants, rows, 0, 1);
    NumberBound(Tenants, rows, 1);
    assert Zeros(3) == "0" + Zeros(2) == "00" + Zeros(1) == "000";
    assert Padded(1) == "0001";
    assert Reference(Tenants, rows, 1) == "TEN-0001";
    var after := FilledAll(Tenants, rows);
    assert after[0].reference == after[1].reference == Some("TEN-0001");
  }

  /** The number at the end of a reference. */
  function NumberOf(r: string): Option<nat>
  {
    if |r| >= 4 && AllDigits(r[|r| - 4..]) then Some(Value(r[|r| - 4..])) else None
  }

  lemma EndsWithNumber(t: Table, rows: seq<Row>, i: nat)
    requires i < |rows| && rows[i].reference.None? && |Peers(t, rows, i)| <= 9999
    ensures NumberOf(Reference(t, rows, i)) == Some(RowNumber(t, rows, i))
  {
    assert i in Peers(t, rows, i);
    NumberBound(t, rows, i);
    PaddedDenotes(RowNumber(t, rows, i));
    EndOf(Stem(t, rows[i].period), Padded(RowNumber(t, rows, i)));
  }

  lemma EndOf(stem: string, number: string)
    requires |number| == 4
    ensures (stem + number)[|stem + number| - 4..] == number
  {
  }

  /** After the backfill of a partition of at most 9999 rows, the numbers at the end of the references grow
      with the age of the rows. */
  lemma ReferencesByAge(t: Table, rows: seq<Row>, i: nat, j: nat)
    requires i < |rows| && j < |rows| && SamePartition(t, rows, i, j) && rows[i].created < rows[j].created
    requires |Peers(t, rows, i)| <= 9999
    ensures var r, s := FilledAll(t, rows)[i].reference, FilledAll(t, rows)[j].reference;
            r.Some? && s.Some? && NumberOf(r.value).Some? && NumberOf(s.value).Some?
            && NumberOf(r.value).value < NumberOf(s.value).value
  {
    StemsArePartitions(t, rows[i].period, rows[j].period);
    OlderRowsFirst(t, rows, i, j);
    PeersShared(t, rows, i, j);
    EndsWithNumber(t, rows, i);
    EndsWithNumber(t, rows, j);
  }

  /** The reference of the only row of a table. */
  lemma FirstReference(t: Table, period: string)
    ensures FilledAll(t, [Row(period, 0, None)])[0].reference
            == Some(match t
                    case Inspections => "INS-" + period + "-0001"
                    case MaintenanceIssues => "MNT-" + period + "-0001"
                    case Tenants => "TEN-0001"
                    case Units => "UNIT-0001"
                    case RentSchedules => "RS-" + period + "-0001")
  {
    var rows := [Row(period, 0, None)];
    assert Peers(t, rows, 0) == {0};
    NumberBound(t, rows, 0);
    assert Zeros(3) == "0" + Zeros(2) == "00" + Zeros(1) == "000";
    assert Padded(1) == "0001";
    FirstText(Tag(t), period);
  }

  lemma FirstText(tag: string, period: string)
    ensures tag + (period + "-") + "0001" == tag + period + "-0001"
    ensures "TEN-" + "0001" == "TEN-0001" && "UNIT-" + "0001" == "UNIT-0001"
  {
    assert "-" + "0001" == "-0001";
    assert tag + (period + "-") + "0001" == tag + period + ("-" + "0001");
  }

  /** The UPDATE, with the row numbers of the table before it. */
  method Backfill(t: Table, rows: array<Row>)
    modifies rows
    ensures rows[..] == FilledAll(t, old(rows[..]))
  {
    var before := rows[..];
    for i := 0 to rows.Length
      invariant forall j | i <= j < rows.Length :: rows[j] == before[j]
      invariant forall j | 0 <= j < i :: rows[j] == Filled(t, before, j)
    {
      rows[i] := Filled(t, before, i);
    }
  }
}
