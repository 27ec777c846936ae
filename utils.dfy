/** Helpers shared by the keyboards and the messages: the list of bookable days, the
    clean-up of booking codes before they are shown, and the cell a sheet update targets. */
module Utils {
  import opened Wrappers
  import opened Text
  import opened Clock

  // ------------------------------------------------------------ generate_days

  /** The days among the `n` days from `today` on that are not Sundays, in order. */
  function OpenDays(today: int, n: nat): seq<int>
  {
    if n == 0 then []
    else
      var d := today + n - 1;
      OpenDays(today, n - 1) + (if Weekday(d) != Sunday then [d] else [])
  }

  /** The open days lie in the window, are no Sundays, increase, and include every day of
      the window that is not a Sunday. */
  lemma {:induction false} OpenDaysShape(today: int, n: nat)
    ensures var ds := OpenDays(today, n);
            |ds| <= n
            && (forall i :: 0 <= i < |ds| ==> today <= ds[i] < today + n && Weekday(ds[i]) != Sunday)
            && (forall i, j :: 0 <= i < j < |ds| ==> ds[i] < ds[j])
            && (forall d :: today <= d < today + n && Weekday(d) != Sunday ==> d in ds)
  {
    if n > 0 {
      OpenDaysShape(today, n - 1);
    }
  }

  /** Of any seven consecutive days exactly one is a Sunday, at offset `(3 - today) % 7`. */
  lemma {:induction false} OpenDaysCount(today: int, n: nat)
    requires n <= 7
    ensures |OpenDays(today, n)| == if (3 - today) % 7 < n then n - 1 else n
    ensures n == 7 ==> |OpenDays(today, n)| == 6
  {
    if n > 0 {
      OpenDaysCount(today, n - 1);
      SundayOffset(today, n - 1);
    }
  }

  /** Day `today + k` of a week from `today` is the Sunday exactly at offset `(3 - today) % 7`. */
  lemma SundayOffset(today: int, k: int)
    requires 0 <= k < 7
    ensures Weekday(today + k) == Sunday <==> k == (3 - today) % 7
  {
    var q := (today + 3) / 7;
    var w := (today + 3) % 7;
    assert today + 3 == 7 * q + w;
    assert 3 - today == 7 * (-q) + (6 - w);
    assert (3 - today) % 7 == 6 - w;
    if w + k < 7 {
      assert today + k + 3 == 7 * q + (w + k);
      assert Weekday(today + k) == w + k;
    } else {
      assert today + k + 3 == 7 * (q + 1) + (w + k - 7);
      assert Weekday(today + k) == w + k - 7;
    }
  }

  /** Looking further ahead only adds days at the end. */
  lemma {:induction false} OpenDaysPrefix(today: int, n: nat, m: nat)
    requires n <= m
    ensures OpenDays(today, n) <= OpenDays(today, m)
    decreases m
  {
    if n < m {
      OpenDaysPrefix(today, n, m - 1);
    }
  }

  /** The `'%A, %Y-%m-%d'` labels of the days `ds`, in order. */
  function DayLabels(ds: seq<int>): seq<string>
  {
    seq(|ds|, i requires 0 <= i < |ds| => DayLabel(ds[i]))
  }

  lemma DayLabelsAppend(ds: seq<int>, d: int)
    ensures DayLabels(ds + [d]) == DayLabels(ds) + [DayLabel(d)]
  {
  }

  lemma OpenDaysStep(today: int, i: nat)
    ensures Weekday(today + i) != Sunday ==> OpenDays(today, i + 1) == OpenDays(today, i) + [today + i]
    ensures Weekday(today + i) == Sunday ==> OpenDays(today, i + 1) == OpenDays(today, i)
  {
    assert OpenDays(today, i) + [] == OpenDays(today, i);
  }

  /** Once six days are collected, the walk has seen every open day of the week. */
  lemma SixIsAll(today: int, i: nat)
    requires i <= 7 && |OpenDays(today, i)| == 6
    ensures OpenDays(today, i) == OpenDays(today, 7)
  {
    OpenDaysCount(today, 7);
    OpenDaysPrefix(today, i, 7);
  }

  /** One day of the walk: the labels so far grow by the day's label unless it is a Sunday. */
  lemma GenerateStep(today: int, i: nat, ds: seq<int>)
    requires ds == OpenDays(today, i)
    ensures Weekday(today + i) != Sunday ==> ds + [today + i] == OpenDays(today, i + 1)
    ensures Weekday(today + i) == Sunday ==> ds == OpenDays(today, i + 1)
  {
    OpenDaysStep(today, i);
  }

  /** When the walk ends, either by the six-day cut or after the seventh day, it has the
      whole week's labels. */
  lemma GenerateDone(today: int, i: nat, ds: seq<int>, days: seq<string>)
    requires i <= 7 && ds == OpenDays(today, i) && days == DayLabels(ds)
    ensures i == 7 || |days| == 6 ==> days == DayLabels(OpenDays(today, 7)) && |days| == 6
  {
    if i < 7 && |days| == 6 {
      SixIsAll(today, i);
    }
    OpenDaysCount(today, 7);
  }

  /** `days.append(f'{day_name}, {formatted_date}')` for the day `d`. */
  method AppendLabel(days: seq<string>, ghost ds: seq<int>, d: int) returns (r: seq<string>)
    requires days == DayLabels(ds)
    ensures r == DayLabels(ds + [d])
  {
    DayLabelsAppend(ds, d);
    r := days + [DayLabel(d)];
  }

  /** `generate_days`: walks the seven days from `today`, skips Sunday, and stops once six
      days are collected. The list is the six days that are not Sundays, labelled. */
  method GenerateDays(today: int) returns (days: seq<string>)
    ensures days == DayLabels(OpenDays(today, 7))
    ensures |days| == 6
  {
    days := [];
    ghost var ds: seq<int> := [];
    var i := 0;
    while i < 7
      invariant 0 <= i <= 7
      invariant ds == OpenDays(today, i) && days == DayLabels(ds)
      invariant |days| < 6
    {
      var next := today + i;
      GenerateStep(today, i, ds);
      if Weekday(next) != Sunday {
        days := AppendLabel(days, ds, next);
        ds := ds + [next];
      }
      i := i + 1;
      GenerateDone(today, i, ds, days);
      if |days| == 6 {
        break;
      }
    }
    if |days| < 6 {
      GenerateDone(today, i, ds, days);
    }
  }

  // ------------------------------------------------------------ booking codes

  /** Codes that stand for "no booking yet" or "none possible" and are never padded. */
  const Sentinels: seq<string> := ["TBD", "NA", "INF", "inf"]

  predicate IsSeparator(c: char)
  {
    c == '.' || c == '+' || c == '-'
  }

  /** `code.replace('.', '').replace('+', '').replace('-', '')`. */
  function StripSeparators(code: string): string
  {
    Remove(Remove(Remove(code, '.'), '+'), '-')
  }

  /** The characters of `s` that are not separators, in order: the same string in one pass. */
  function KeepOthers(s: string): (r: string)
    ensures forall i :: 0 <= i < |r| ==> !IsSeparator(r[i])
    ensures (forall i :: 0 <= i < |s| ==> !IsSeparator(s[i])) ==> r == s
  {
    if s == [] then []
    else (if IsSeparator(s[0]) then [] else [s[0]]) + KeepOthers(s[1..])
  }

  lemma RemoveCons(x: char, s: string, c: char)
    ensures Remove([x] + s, c) == (if x == c then [] else [x]) + Remove(s, c)
  {
    assert ([x] + s)[1..] == s;
  }

  /** The three `replace` calls remove exactly the separators and keep every other
      character in place. */
  lemma {:induction false} StripSeparatorsKeeps(s: string)
    ensures StripSeparators(s) == KeepOthers(s)
  {
    if s != [] {
      StripSeparatorsKeeps(s[1..]);
      var x := s[0];
      assert s == [x] + s[1..];
      RemoveCons(x, s[1..], '.');
      var a := Remove(s[1..], '.');
      if x != '.' {
        RemoveCons(x, a, '+');
        var b := Remove(a, '+');
        if x != '+' {
          RemoveCons(x, b, '-');
        }
      }
    }
  }

  /** A short code that is not a sentinel, left-padded with zeros to six characters. */
  function PadCode(stripped: string): string
  {
    if |stripped| < 6 && stripped !in Sentinels then ZeroPad(stripped, 6) else stripped
  }

  /** The code as the listing shows it (before upper-casing): separators removed, then
      padded. */
  function NormalizeBookingCode(code: string): (r: string)
    ensures |r| >= 6 || r in Sentinels
    ensures |r| >= |KeepOthers(code)| && r[|r| - |KeepOthers(code)|..] == KeepOthers(code)
  {
    StripSeparatorsKeeps(code);
    PadCodeShape(StripSeparators(code));
    PadCode(StripSeparators(code))
  }

  lemma PadCodeShape(s: string)
    ensures var r := PadCode(s);
            (|r| >= 6 || r in Sentinels)
            && |r| >= |s| && r[|r| - |s|..] == s
            && (forall i :: 0 <= i < |r| - |s| ==> r[i] == '0')
            && (r != s <==> |s| < 6 && s !in Sentinels)
  {
    var r := PadCode(s);
    if |s| < 6 && s !in Sentinels {
      assert r == Repeat('0', 6 - |s|) + s;
    }
  }

  /** The normalised code has no separator; it is at least six long or a sentinel; and it
      is the code without separators behind a run of zeros (none when nothing was padded). */
  lemma NormalizeShape(code: string)
    ensures var r := NormalizeBookingCode(code);
            var stripped := KeepOthers(code);
            (forall i :: 0 <= i < |r| ==> !IsSeparator(r[i]))
            && (|r| >= 6 || r in Sentinels)
            && |r| >= |stripped| && r[|r| - |stripped|..] == stripped
            && (forall i :: 0 <= i < |r| - |stripped| ==> r[i] == '0')
            && (r != stripped <==> |stripped| < 6 && stripped !in Sentinels)
  {
    StripSeparatorsKeeps(code);
    var stripped := KeepOthers(code);
    PadCodeShape(stripped);
    var r := PadCode(stripped);
    forall i | 0 <= i < |r|
      ensures !IsSeparator(r[i])
    {
      if i >= |r| - |stripped| {
        assert r[i] == r[|r| - |stripped|..][i - (|r| - |stripped|)];
      }
    }
  }

  /** Normalising twice changes nothing. */
  lemma NormalizeIdempotent(code: string)
    ensures NormalizeBookingCode(NormalizeBookingCode(code)) == NormalizeBookingCode(code)
  {
    var r := NormalizeBookingCode(code);
    NormalizeShape(code);
    StripSeparatorsKeeps(r);
  }

  // ------------------------------------------------------------ sheet cells

  /** A 1-based (row, column) address in the sheet. */
  datatype Cell = Cell(row: nat, col: nat)

  /** The position of the first `x` in `xs`, if any. */
  function Position(xs: seq<string>, x: string): (k: Option<nat>)
    ensures k.Some? <==> x in xs
    ensures k.Some? ==> k.value < |xs| && xs[k.value] == x && forall i :: 0 <= i < k.value ==> xs[i] != x
  {
    if xs == [] then None
    else if xs[0] == x then Some(0)
    else
      var k := Position(xs[1..], x);
      if k.Some? then Some(k.value + 1) else None
  }

  /** `update_gsheet_data_point`'s target: the frame's rows are `ids` (index 0, 1, ...)
      under one header line, and its columns are `columns`. None where the id has no row
      (`row_idx[0]` raises) or the column does not exist (`get_loc` raises). */
  function SheetCell(ids: seq<string>, columns: seq<string>, id: string, column: string): (c: Option<Cell>)
    ensures c.Some? <==> id in ids && column in columns
    ensures c.Some? ==> 2 <= c.value.row < |ids| + 2 && ids[c.value.row - 2] == id
                        && (forall i :: 0 <= i < c.value.row - 2 ==> ids[i] != id)
                        && 1 <= c.value.col <= |columns| && columns[c.value.col - 1] == column
                        && (forall i :: 0 <= i < c.value.col - 1 ==> columns[i] != column)
  {
    var r := Position(ids, id);
    var k := Position(columns, column);
    if r.Some? && k.Some? then Some(Cell(r.value + 2, k.value + 1)) else None
  }
}
