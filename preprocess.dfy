/** Row cleaning (src/preprocess.py): the raw table is copied, then its columns are rewritten in place. */
module Preprocess {
  import opened Common
  import opened Strings

  /** A column of the raw table, by the kind of values pandas holds in it. */
  datatype Column =
    | Text(cells: seq<Option<string>>)   // dtype object: strings, a missing cell is None or NaN
    | Numbers(nums: seq<Option<int>>)    // a numeric dtype
    | Stamps(times: seq<Option<Time>>)   // datetime64[ns], a missing cell is NaT

  function Height(c: Column): nat {
    match c
    case Text(cells) => |cells|
    case Numbers(nums) => |nums|
    case Stamps(times) => |times|
  }

  /** The spellings that `astype(str)` gives a missing cell, or an empty one, all read back as missing. */
  const Sentinels: set<string> := {"", "nan", "None"}

  /** The three timestamp columns the pipeline parses and guards. */
  const DateColumns: set<string> := {"Contact Create date", "Contact Update date", "Events Create date"}

  /** Sanity window of the date guard, 2000-01-01 and 2100-01-01 at midnight. */
  const Low: Time := 946_684_800 * NanosPerSecond
  const High: Time := 4_102_444_800 * NanosPerSecond

  /** A raw table: column names, columns, and the number of rows every column has. */
  class Frame {
    var names: seq<string>
    var columns: seq<Column>
    var rows: nat

    ghost predicate Valid()
      reads this
    {
      && |names| == |columns|
      && forall j :: 0 <= j < |columns| ==> Height(columns[j]) == rows
    }

    /** `df.copy()`: a fresh table with the same names and columns. */
    constructor Copy(df: Frame)
      requires df.Valid()
      ensures Valid()
      ensures names == df.names && columns == df.columns && rows == df.rows
    {
      names := df.names;
      columns := df.columns;
      rows := df.rows;
    }
  }

  // ---------------------------------------------------------------- clean_dataframe

  /** One text cell after `astype(str).str.strip()` and the sentinel test. */
  function CleanCell(v: Option<string>): (r: Option<string>)
    ensures r.None? <==> v.None? || Trim(v.value) in Sentinels
    ensures r.Some? ==> r.value == Trim(v.value) && IsTrimmed(r.value) && r.value !in Sentinels
  {
    match v
    case None => None
    case Some(s) => var t := Trim(s); if t in Sentinels then None else Some(t)
  }

  /** A column after cleaning: text columns are cleaned cell by cell, the others are kept. */
  function CleanColumn(c: Column): (r: Column)
    ensures Height(r) == Height(c)
    ensures r.Text? <==> c.Text?
    ensures !c.Text? ==> r == c
    ensures c.Text? ==> forall i :: 0 <= i < |c.cells| ==> r.cells[i] == CleanCell(c.cells[i])
  {
    match c
    case Text(cells) => Text(seq(|cells|, i requires 0 <= i < |cells| => CleanCell(cells[i])))
    case _ => c
  }

  function TrimNames(names: seq<string>): (r: seq<string>)
    ensures |r| == |names|
    ensures forall j :: 0 <= j < |r| ==> r[j] == Trim(names[j])
  {
    seq(|names|, j requires 0 <= j < |names| => Trim(names[j]))
  }

  function CleanColumns(cols: seq<Column>): (r: seq<Column>)
    ensures |r| == |cols|
    ensures forall j :: 0 <= j < |r| ==> r[j] == CleanColumn(cols[j])
  {
    seq(|cols|, j requires 0 <= j < |cols| => CleanColumn(cols[j]))
  }

  /** No two column names strip to the same name: otherwise `df[col]` selects several columns,
      which have no single dtype, and `clean_dataframe` raises. */
  predicate DistinctStripped(names: seq<string>) {
    forall a, b :: 0 <= a < b < |names| ==> Trim(names[a]) != Trim(names[b])
  }

  /** `clean_dataframe`: strips the column names and cleans every text column of a copy of `df`. */
  method CleanDataframe(df: Frame) returns (out: Frame)
    requires df.Valid() && DistinctStripped(df.names)
    ensures fresh(out) && out.Valid() && unchanged(df)
    ensures out.rows == df.rows
    ensures out.names == TrimNames(df.names)
    ensures out.columns == CleanColumns(df.columns)
  {
    out := new Frame.Copy(df);
    out.names := TrimNames(out.names);
    var j := 0;
    while j < |out.columns|
      invariant 0 <= j <= |out.columns| == |df.columns|
      invariant out.Valid() && out.rows == df.rows && out.names == TrimNames(df.names)
      invariant out.columns[..j] == CleanColumns(df.columns)[..j]
      invariant out.columns[j..] == df.columns[j..]
    {
      out.columns := out.columns[j := CleanColumn(out.columns[j])];
      j := j + 1;
    }
  }

  lemma CleanCellIdempotent(v: Option<string>)
    ensures CleanCell(CleanCell(v)) == CleanCell(v)
  {
    if v.Some? {
      TrimIdempotent(v.value);
    }
  }

  /** Cleaning a cleaned column changes nothing: a missing cell stays missing, a kept one is already stripped. */
  lemma CleanColumnIdempotent(c: Column)
    ensures CleanColumn(CleanColumn(c)) == CleanColumn(c)
  {
    if c.Text? {
      var once := CleanColumn(c);
      var twice := CleanColumn(once);
      forall i | 0 <= i < |c.cells|
        ensures twice.cells[i] == once.cells[i]
      {
        CleanCellIdempotent(c.cells[i]);
      }
    }
  }

  /** `clean_dataframe` is idempotent on names and on columns. */
  lemma CleanIdempotent(names: seq<string>, cols: seq<Column>)
    ensures TrimNames(TrimNames(names)) == TrimNames(names)
    ensures CleanColumns(CleanColumns(cols)) == CleanColumns(cols)
  {
    forall j | 0 <= j < |names|
      ensures Trim(Trim(names[j])) == Trim(names[j])
    {
      TrimIdempotent(names[j]);
    }
    forall j | 0 <= j < |cols|
      ensures CleanColumn(CleanColumn(cols[j])) == CleanColumn(cols[j])
    {
      CleanColumnIdempotent(cols[j]);
    }
  }

  // ---------------------------------------------------------------- parse_datetimes

  /** `pd.to_datetime(col, errors="coerce")`. The free-text parser is the parameter `parse`, whose
      `None` is a cell it cannot read; integers are already nanosecond instants. */
  function ParseColumn(c: Column, parse: string -> Option<Time>): (r: Column)
    ensures r.Stamps? && Height(r) == Height(c)
    ensures c.Stamps? ==> r == c
    ensures c.Text? ==> forall i :: 0 <= i < |c.cells| && c.cells[i].None? ==> r.times[i].None?
  {
    match c
    case Text(cells) =>
      Stamps(seq(|cells|, i requires 0 <= i < |cells| => if cells[i].None? then None else parse(cells[i].value)))
    case Numbers(nums) => Stamps(nums)
    case Stamps(_) => c
  }

  function ParseColumns(names: seq<string>, cols: seq<Column>, parse: string -> Option<Time>): (r: seq<Column>)
    requires |names| == |cols|
    ensures |r| == |cols|
    ensures forall j :: 0 <= j < |r| ==> Height(r[j]) == Height(cols[j])
    ensures forall j :: 0 <= j < |r| && names[j] !in DateColumns ==> r[j] == cols[j]
    ensures forall j :: 0 <= j < |r| && names[j] in DateColumns ==> r[j] == ParseColumn(cols[j], parse)
  {
    seq(|cols|, j requires 0 <= j < |cols| => if names[j] in DateColumns then ParseColumn(cols[j], parse) else cols[j])
  }

  /** `parse_datetimes`: each of the three date columns that is present is parsed; nothing else changes. */
  method ParseDatetimes(df: Frame, parse: string -> Option<Time>) returns (out: Frame)
    requires df.Valid()
    ensures fresh(out) && out.Valid() && unchanged(df)
    ensures out.rows == df.rows && out.names == df.names
    ensures out.columns == ParseColumns(df.names, df.columns, parse)
  {
    out := new Frame.Copy(df);
    var j := 0;
    while j < |out.columns|
      invariant 0 <= j <= |out.columns| == |df.columns|
      invariant out.Valid() && out.rows == df.rows && out.names == df.names
      invariant out.columns[..j] == ParseColumns(df.names, df.columns, parse)[..j]
      invariant out.columns[j..] == df.columns[j..]
    {
      assert out.columns[j] == df.columns[j];
      if out.names[j] in DateColumns {
        out.columns := out.columns[j := ParseColumn(out.columns[j], parse)];
      }
      j := j + 1;
    }
  }

  // ---------------------------------------------------------------- drop_impossible_dates

  /** A column pandas can compare with a timestamp: a datetime column, or a text column with nothing
      in it (a missing object compares false; a string or an integer raises a TypeError). */
  predicate Comparable(c: Column) {
    c.Stamps? || (c.Text? && forall i :: 0 <= i < |c.cells| ==> c.cells[i].None?)
  }

  predicate DatesComparable(names: seq<string>, cols: seq<Column>)
    requires |names| == |cols|
  {
    forall j :: 0 <= j < |cols| && names[j] in DateColumns ==> Comparable(cols[j])
  }

  function GuardCell(v: Option<Time>): (r: Option<Time>)
    ensures r.None? <==> v.None? || v.value < Low || v.value > High
    ensures r.Some? ==> r == v
  {
    if v.Some? && (v.value < Low || v.value > High) then None else v
  }

  function GuardColumn(c: Column): (r: Column)
    ensures Height(r) == Height(c)
    ensures !c.Stamps? ==> r == c
    ensures c.Stamps? ==> r.Stamps? && forall i :: 0 <= i < |c.times| ==> r.times[i] == GuardCell(c.times[i])
  {
    match c
    case Stamps(times) => Stamps(seq(|times|, i requires 0 <= i < |times| => GuardCell(times[i])))
    case _ => c
  }

  function GuardColumns(names: seq<string>, cols: seq<Column>): (r: seq<Column>)
    requires |names| == |cols|
    ensures |r| == |cols|
    ensures forall j :: 0 <= j < |r| ==> Height(r[j]) == Height(cols[j])
    ensures forall j :: 0 <= j < |r| && names[j] !in DateColumns ==> r[j] == cols[j]
    ensures forall j :: 0 <= j < |r| && names[j] in DateColumns ==> r[j] == GuardColumn(cols[j])
  {
    seq(|cols|, j requires 0 <= j < |cols| => if names[j] in DateColumns then GuardColumn(cols[j]) else cols[j])
  }

  /** `drop_impossible_dates`: in each present date column, an instant before 2000-01-01 or after
      2100-01-01 becomes missing; nothing else changes. */
  method DropImpossibleDates(df: Frame) returns (out: Frame)
    requires df.Valid() && DatesComparable(df.names, df.columns)
    ensures fresh(out) && out.Valid() && unchanged(df)
    ensures out.rows == df.rows && out.names == df.names
    ensures out.columns == GuardColumns(df.names, df.columns)
  {
    out := new Frame.Copy(df);
    var j := 0;
    while j < |out.columns|
      invariant 0 <= j <= |out.columns| == |df.columns|
      invariant out.Valid() && out.rows == df.rows && out.names == df.names
      invariant out.columns[..j] == GuardColumns(df.names, df.columns)[..j]
      invariant out.columns[j..] == df.columns[j..]
    {
      if out.names[j] in DateColumns {
        out.columns := out.columns[j := GuardColumn(out.columns[j])];
      }
      j := j + 1;
    }
  }

  /** Both ends of the window are kept, the instants just outside it are cleared, and missing stays missing. */
  lemma GuardBoundaries()
    ensures GuardCell(Some(Low)) == Some(Low) && GuardCell(Some(High)) == Some(High)
    ensures GuardCell(Some(Low - 1)) == None && GuardCell(Some(High + 1)) == None
    ensures GuardCell(None) == None
  {
  }

  /** Guarding guarded dates changes nothing. */
  lemma GuardIdempotent(names: seq<string>, cols: seq<Column>)
    requires |names| == |cols|
    ensures GuardColumns(names, GuardColumns(names, cols)) == GuardColumns(names, cols)
  {
    var once := GuardColumns(names, cols);
    var twice := GuardColumns(names, once);
    forall j | 0 <= j < |cols|
      ensures twice[j] == once[j]
    {
      if names[j] in DateColumns && cols[j].Stamps? {
        assert GuardColumn(once[j]).times == once[j].times;
      }
    }
  }

  /** After `parse_datetimes`, `drop_impossible_dates` can compare every date column. */
  lemma ParsedDatesComparable(names: seq<string>, cols: seq<Column>, parse: string -> Option<Time>)
    requires |names| == |cols|
    ensures DatesComparable(names, ParseColumns(names, cols, parse))
  {
  }

  /** After the date guard, every present instant of a date column lies in the window. */
  lemma GuardedDatesInWindow(names: seq<string>, cols: seq<Column>, j: nat, i: nat)
    requires |names| == |cols| && j < |cols| && names[j] in DateColumns
    requires GuardColumns(names, cols)[j].Stamps? && i < |GuardColumns(names, cols)[j].times|
    requires GuardColumns(names, cols)[j].times[i].Some?
    ensures Low <= GuardColumns(names, cols)[j].times[i].value <= High
  {
  }
}
