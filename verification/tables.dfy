/** A table as the cleaners see it: named columns and rows of cells, plus
    the two generic table operations the cleaners use, first-match column
    lookup (`DataCleaner._find_column`) and keep-first duplicate removal
    (`DataFrame.drop_duplicates(keep='first')`). */
module Tables {
  import opened Common
  import opened Calendar

  /** One table cell: a missing value (NaN, None or NaT), text, an integer, or a date. */
  datatype Cell = Blank | Text(s: string) | Number(n: int) | Day(date: Date)

  type Row = map<string, Cell>

  datatype Table = Table(columns: seq<string>, rows: seq<Row>)

  /** `DataFrame.empty`: no rows or no columns. */
  predicate IsEmpty(t: Table)
  {
    |t.rows| == 0 || |t.columns| == 0
  }

  function CellAt(r: Row, c: string): Cell
  {
    if c in r then r[c] else Blank
  }

  /** Applies a row transformation to every row, keeping the order. */
  function MapRows(rows: seq<Row>, f: Row -> Row): (r: seq<Row>)
    ensures |r| == |rows|
    ensures forall i :: 0 <= i < |rows| ==> r[i] == f(rows[i])
  {
    seq(|rows|, i requires 0 <= i < |rows| => f(rows[i]))
  }

  /** Replaces the cell of column `c` (adding it when the row lacks it). */
  function SetCell(r: Row, c: string, v: Cell): (r': Row)
    ensures CellAt(r', c) == v
    ensures forall c' :: c' != c ==> CellAt(r', c') == CellAt(r, c')
  {
    r[c := v]
  }

  /** `str(value)` of a cell: NaN prints as "nan", an integer in decimal,
      a date as a midnight timestamp. */
  function Render(c: Cell): string
  {
    match c
    case Blank => "nan"
    case Text(s) => s
    case Number(n) => IntText(n)
    case Day(d) => PadDigits(d.year, 4) + "-" + PadDigits(d.month, 2) + "-" + PadDigits(d.day, 2) + " 00:00:00"
  }

  function DigitChar(k: int): char
    requires 0 <= k < 10
  {
    "0123456789"[k]
  }

  predicate IsDigit(c: char)
  {
    '0' <= c <= '9'
  }

  /** Decimal digits of a natural number; the last character is always a digit. */
  function NatText(n: nat): (r: string)
    ensures |r| > 0 && IsDigit(r[|r| - 1])
  {
    if n < 10 then [DigitChar(n)] else NatText(n / 10) + [DigitChar(n % 10)]
  }

  /** Python's `str(n)` for an integer. */
  function IntText(n: int): (r: string)
    ensures |r| > 0 && IsDigit(r[|r| - 1])
  {
    var digits := NatText(if n < 0 then -n else n);
    if n < 0 then "-" + digits else digits
  }

  /** Decimal text left-padded with zeros to `width` digits, with a sign for negatives. */
  function PadDigits(n: int, width: nat): (r: string)
    ensures |r| > 0 && IsDigit(r[|r| - 1])
  {
    var digits := NatText(if n < 0 then -n else n);
    var padded := if width > |digits| then seq(width - |digits|, _ => '0') + digits else digits;
    if n < 0 then "-" + padded else padded
  }

  /** A whole day a `datetime64[ns]` value can hold: a valid date from
      1677-09-22 to 2262-04-11, the days 106751 either side of 1970-01-01. */
  predicate IsTimestampDay(d: Date)
  {
    IsValid(d) && -106751 <= DayNumber(d) <= 106751
  }

  /** The two ends of the range are the days named above. */
  lemma TimestampRangeEnds()
    ensures IsTimestampDay(Date(1677, 9, 22)) && !IsTimestampDay(Date(1677, 9, 21))
    ensures IsTimestampDay(Date(2262, 4, 11)) && !IsTimestampDay(Date(2262, 4, 12))
  {
    assert 1677 / 400 == 4 && 1677 % 400 == 77 && EraYearDays(77) == 28124 && MonthOffset(9) == 184;
    assert DayNumber(Date(1677, 9, 22)) == -106751;
    assert 2262 / 400 == 5 && 2262 % 400 == 262 && EraYearDays(262) == 95693 && MonthOffset(4) == 31;
    assert DayNumber(Date(2262, 4, 11)) == 106751;
  }

  /** `pd.to_datetime(..., errors='coerce')` on one cell: a missing value gives
      no date, a date is kept, and any other cell is read by `parse`, the text
      parser, which is a parameter of the model. A date that `datetime64[ns]`
      cannot hold is coerced to NaT as well. */
  function ToDatetime(c: Cell, parse: Cell -> Option<Date>): (r: Option<Date>)
    ensures r.Some? ==> IsTimestampDay(r.value)
    ensures c.Blank? ==> r.None?
    ensures c.Day? ==> (r.Some? <==> IsTimestampDay(c.date)) && (r.Some? ==> r.value == c.date)
    ensures !c.Blank? && !c.Day? ==>
              (r.Some? <==> parse(c).Some? && IsTimestampDay(parse(c).value)) && (r.Some? ==> r == parse(c))
  {
    var d := match c
      case Blank => None
      case Day(d) => Some(d)
      case _ => parse(c);
    if d.Some? && IsTimestampDay(d.value) then d else None
  }

  /** Every rendering of a cell that is not missing and not text ends in a digit. */
  lemma RenderEndsInDigit(c: Cell)
    requires c.Number? || c.Day?
    ensures var r := Render(c); |r| > 0 && IsDigit(r[|r| - 1])
  {
  }

  /** The index of the first candidate from position `from` on that is a
      column, or `|candidates|` when there is none. */
  function FirstPresent(columns: seq<string>, candidates: seq<string>, from: nat): (k: nat)
    requires from <= |candidates|
    ensures from <= k <= |candidates|
    ensures forall j :: from <= j < k ==> candidates[j] !in columns
    ensures k < |candidates| ==> candidates[k] in columns
    decreases |candidates| - from
  {
    if from == |candidates| then from
    else if candidates[from] in columns then from
    else FirstPresent(columns, candidates, from + 1)
  }

  /** `_find_column`: the first candidate name that is a column of the table. */
  function FindColumn(columns: seq<string>, candidates: seq<string>): (r: Option<string>)
    ensures r.None? <==> forall k :: 0 <= k < |candidates| ==> candidates[k] !in columns
    ensures r.Some? ==> exists k :: 0 <= k < |candidates| && candidates[k] == r.value && r.value in columns
                          && forall j :: 0 <= j < k ==> candidates[j] !in columns
  {
    var k := FirstPresent(columns, candidates, 0);
    if k < |candidates| then Some(candidates[k]) else None
  }

  /** `xs` can be obtained from `ys` by deleting elements: the order is kept. */
  ghost predicate IsSubsequence<T>(xs: seq<T>, ys: seq<T>)
    decreases |xs| + |ys|
  {
    if |xs| == 0 then true
    else if |ys| == 0 then false
    else (xs[0] == ys[0] && IsSubsequence(xs[1..], ys[1..])) || IsSubsequence(xs, ys[1..])
  }

  function Keys<T, K>(xs: seq<T>, key: T -> K): set<K>
  {
    set k | 0 <= k < |xs| :: key(xs[k])
  }

  /** Position `i` holds the first row with its key. */
  predicate IsFirstOccurrence<T, K(==)>(xs: seq<T>, i: int, key: T -> K)
    requires 0 <= i < |xs|
  {
    forall j :: 0 <= j < i ==> key(xs[j]) != key(xs[i])
  }

  /** Reference definition of keep-first deduplication: walk the rows in
      order and keep a row unless its key has been seen. */
  function KeepFirst<T, K(==)>(xs: seq<T>, key: T -> K, seen: set<K>): seq<T>
  {
    if |xs| == 0 then []
    else if key(xs[0]) in seen then KeepFirst(xs[1..], key, seen)
    else [xs[0]] + KeepFirst(xs[1..], key, seen + {key(xs[0])})
  }

  /** No two rows share a key, and no row has a key from `seen`. */
  ghost predicate KeysDistinct<T, K>(r: seq<T>, key: T -> K, seen: set<K>)
  {
    && (forall k :: 0 <= k < |r| ==> key(r[k]) !in seen)
    && (forall k, l :: 0 <= k < l < |r| ==> key(r[k]) != key(r[l]))
  }

  /** The kept rows have pairwise different keys, none of them already seen. */
  lemma {:induction false} KeepFirstDistinct<T, K>(xs: seq<T>, key: T -> K, seen: set<K>)
    ensures KeysDistinct(KeepFirst(xs, key, seen), key, seen)
  {
    if |xs| > 0 {
      var x, rest := xs[0], xs[1..];
      if key(x) in seen {
        KeepFirstDistinct(rest, key, seen);
      } else {
        var seen' := seen + {key(x)};
        KeepFirstDistinct(rest, key, seen');
        var r' := KeepFirst(rest, key, seen');
        var r := [x] + r';
        assert r == KeepFirst(xs, key, seen);
        forall k | 0 <= k < |r| ensures key(r[k]) !in seen {
          if k > 0 { assert r[k] == r'[k - 1]; }
        }
        forall k, l | 0 <= k < l < |r| ensures key(r[k]) != key(r[l]) {
          assert r[l] == r'[l - 1];
          if k > 0 { assert r[k] == r'[k - 1]; }
        }
      }
    }
  }

  lemma KeysCons<T, K>(x: T, r: seq<T>, key: T -> K)
    ensures Keys([x] + r, key) == {key(x)} + Keys(r, key)
  {
    var xr := [x] + r;
    forall y | y in {key(x)} + Keys(r, key) ensures y in Keys(xr, key) {
      if y != key(x) {
        var k :| 0 <= k < |r| && key(r[k]) == y;
        assert xr[k + 1] == r[k];
      } else {
        assert xr[0] == x;
      }
    }
    forall y | y in Keys(xr, key) ensures y in {key(x)} + Keys(r, key) {
      var k :| 0 <= k < |xr| && key(xr[k]) == y;
      if k > 0 { assert xr[k] == r[k - 1]; }
    }
  }

  /** Every key of the input, other than those already seen, survives. */
  lemma {:induction false} KeepFirstKeys<T, K>(xs: seq<T>, key: T -> K, seen: set<K>)
    ensures Keys(KeepFirst(xs, key, seen), key) == Keys(xs, key) - seen
  {
    if |xs| > 0 {
      var x, rest := xs[0], xs[1..];
      assert xs == [x] + rest;
      KeysCons(x, rest, key);
      if key(x) in seen {
        KeepFirstKeys(rest, key, seen);
      } else {
        KeepFirstKeys(rest, key, seen + {key(x)});
        KeysCons(x, KeepFirst(rest, key, seen + {key(x)}), key);
      }
    }
  }

  /** The kept rows appear in the input in the same order. */
  lemma {:induction false} KeepFirstSubsequence<T, K>(xs: seq<T>, key: T -> K, seen: set<K>)
    ensures IsSubsequence(KeepFirst(xs, key, seen), xs)
  {
    if |xs| > 0 {
      var x, rest := xs[0], xs[1..];
      if key(x) in seen {
        KeepFirstSubsequence(rest, key, seen);
      } else {
        KeepFirstSubsequence(rest, key, seen + {key(x)});
        var r := KeepFirst(xs, key, seen);
        assert r[0] == x && r[1..] == KeepFirst(rest, key, seen + {key(x)});
      }
    }
  }

  /** Every row that is the first with its key (and whose key was not seen) is kept. */
  lemma {:induction false} KeepFirstKeepsFirstOccurrences<T, K>(xs: seq<T>, key: T -> K, seen: set<K>, i: int)
    requires 0 <= i < |xs| && IsFirstOccurrence(xs, i, key) && key(xs[i]) !in seen
    ensures xs[i] in KeepFirst(xs, key, seen)
  {
    if i > 0 {
      var seen' := if key(xs[0]) in seen then seen else seen + {key(xs[0])};
      assert key(xs[0]) != key(xs[i]);
      assert IsFirstOccurrence(xs[1..], i - 1, key) by {
        forall j | 0 <= j < i - 1 ensures key(xs[1..][j]) != key(xs[1..][i - 1]) {
          assert xs[1..][j] == xs[j + 1];
        }
      }
      KeepFirstKeepsFirstOccurrences(xs[1..], key, seen', i - 1);
    }
  }

  /** `drop_duplicates(subset=..., keep='first')`: one pass with a set of
      seen keys, keeping a row the first time its key appears. */
  method DropDuplicates<T(==), K(==)>(xs: seq<T>, key: T -> K) returns (r: seq<T>)
    ensures IsSubsequence(r, xs)
    ensures forall k, l :: 0 <= k < l < |r| ==> key(r[k]) != key(r[l])
    ensures Keys(r, key) == Keys(xs, key)
    ensures forall i :: 0 <= i < |xs| && IsFirstOccurrence(xs, i, key) ==> xs[i] in r
    ensures r == KeepFirst(xs, key, {})
  {
    var seen: set<K> := {};
    r := [];
    var i := 0;
    while i < |xs|
      invariant 0 <= i <= |xs|
      invariant r + KeepFirst(xs[i..], key, seen) == KeepFirst(xs, key, {})
    {
      var k := key(xs[i]);
      assert xs[i..][1..] == xs[i + 1..];
      if k !in seen {
        r := r + [xs[i]];
        seen := seen + {k};
      }
      i := i + 1;
    }
    assert xs[i..] == [];
    assert r == KeepFirst(xs, key, {});
    KeepFirstProperties(xs, key);
  }

  /** Keep-first deduplication keeps the order, leaves no two rows with one
      key, loses no key, and keeps the first row of every key. */
  lemma KeepFirstProperties<T, K>(xs: seq<T>, key: T -> K)
    ensures IsSubsequence(KeepFirst(xs, key, {}), xs)
    ensures KeysDistinct(KeepFirst(xs, key, {}), key, {})
    ensures Keys(KeepFirst(xs, key, {}), key) == Keys(xs, key)
    ensures forall i :: 0 <= i < |xs| && IsFirstOccurrence(xs, i, key) ==> xs[i] in KeepFirst(xs, key, {})
  {
    KeepFirstSubsequence(xs, key, {});
    KeepFirstDistinct(xs, key, {});
    KeepFirstKeys(xs, key, {});
    forall i | 0 <= i < |xs| && IsFirstOccurrence(xs, i, key)
      ensures xs[i] in KeepFirst(xs, key, {})
    {
      KeepFirstKeepsFirstOccurrences(xs, key, {}, i);
    }
  }
}
