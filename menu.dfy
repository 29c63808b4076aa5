/** The menu `dumpMenu` prints before every prompt: a header, a rule of
    dashes and one row per bucket, laid out in fixed-width columns whose
    width is the longest bucket name rounded up to an even number. */
module Menu {
  import opened Numbers
  import opened Inventory

  /** `padding(n, c)`: the text made of `n` copies of `c`, and nothing when
      `n` is not positive. */
  function Pad(n: int, c: char): (s: string)
    ensures |s| == if n > 0 then n else 0
    ensures forall i | 0 <= i < |s| :: s[i] == c
    decreases n
  {
    if n <= 0 then "" else Pad(n - 1, c) + [c]
  }

  /** `padding`, which appends `c` once per turn of its loop. */
  method Padding(length: int, c: char) returns (s: string)
    ensures s == Pad(length, c)
  {
    s := "";
    var i := 0;
    while i < length
      invariant 0 <= i <= (if length > 0 then length else 0)
      invariant s == Pad(i, c)
    {
      s := s + [c];
      i := i + 1;
    }
  }

  /** The length of the longest bucket name, 0 for an empty inventory. */
  function LongestName(buckets: seq<Bucket>): (m: nat)
    ensures forall b | b in buckets :: |b.name| <= m
    ensures buckets != [] ==> exists b | b in buckets :: |b.name| == m
    ensures buckets == [] ==> m == 0
  {
    if buckets == [] then 0
    else
      var m := LongestName(buckets[..|buckets| - 1]);
      var last := buckets[|buckets| - 1];
      assert buckets == buckets[..|buckets| - 1] + [last];
      if |last.name| > m then |last.name| else m
  }

  /** The name column's width: the longest name rounded up to even. */
  function ColumnWidth(buckets: seq<Bucket>): nat
  {
    var m := LongestName(buckets);
    if m % 2 == 1 then m + 1 else m
  }

  function Header(width: int): string
  {
    var pad := Pad(width / 2 - 6, ' ');
    " ID " + pad + "Bucket Name " + pad + "  Size "
  }

  function Rule(width: int): string
  {
    Pad(width + 12, '-')
  }

  /** One row: the id (one leading space below 10), the name, padding, and
      the count or " -" when the count is unknown. */
  function Row(width: int, bucket: Bucket): string
  {
    var sizeSize := |NumberToString(bucket.numFiles)|;
    (if bucket.id < 10 then " " else "") + NumberToString(bucket.id) + ". " + bucket.name
      + Pad((width - |bucket.name|) + (7 - sizeSize), ' ')
      + (if bucket.numFiles > -1 then NumberToString(bucket.numFiles) else " -")
  }

  function Rows(width: int, buckets: seq<Bucket>): seq<string>
  {
    seq(|buckets|, i requires 0 <= i < |buckets| => Row(width, buckets[i]))
  }

  /** The lines `dumpMenu` prints for an inventory, in order. */
  function Render(buckets: seq<Bucket>): seq<string>
  {
    var width := ColumnWidth(buckets);
    [Header(width), Rule(width)] + Rows(width, buckets)
  }

  /** The first part of `dumpMenu`: the widest name, found by a `forEach`
      over the inventory, rounded up to even. */
  method MeasureColumn(buckets: seq<Bucket>) returns (maxLength: int)
    ensures maxLength == ColumnWidth(buckets)
  {
    maxLength := 0;
    for i := 0 to |buckets|
      invariant maxLength == LongestName(buckets[..i])
    {
      assert buckets[..i + 1][..i] == buckets[..i];
      if |buckets[i].name| > maxLength {
        maxLength := |buckets[i].name|;
      }
    }
    assert buckets[..|buckets|] == buckets;
    if maxLength % 2 == 1 {
      maxLength := maxLength + 1;
    }
  }

  /** `dumpMenu`: measure the name column, then print the header, the rule
      and the rows. The printed lines are returned. */
  method DumpMenu(buckets: seq<Bucket>) returns (lines: seq<string>)
    ensures lines == Render(buckets)
  {
    var maxLength := MeasureColumn(buckets);
    var pad := Padding(maxLength / 2 - 6, ' ');
    var rule := Padding(maxLength + 12, '-');
    var header := " ID " + pad + "Bucket Name " + pad + "  Size ";
    assert header == Header(maxLength);
    lines := [header, rule];

    for i := 0 to |buckets|
      invariant lines == [Header(maxLength), Rule(maxLength)] + Rows(maxLength, buckets[..i])
    {
      var line := FormatRow(maxLength, buckets[i]);
      RowsExtend(maxLength, buckets, i);
      lines := lines + [line];
    }
    assert buckets[..|buckets|] == buckets;
  }

  lemma RowsExtend(width: int, buckets: seq<Bucket>, i: nat)
    requires i < |buckets|
    ensures Rows(width, buckets[..i + 1]) == Rows(width, buckets[..i]) + [Row(width, buckets[i])]
  {
    var prefix := buckets[..i + 1];
    var longer := Rows(width, prefix);
    var extended := Rows(width, buckets[..i]) + [Row(width, buckets[i])];
    assert |longer| == |extended|;
    forall j | 0 <= j < |longer| ensures longer[j] == extended[j] {
      if j < i {
        assert prefix[j] == buckets[..i][j];
      } else {
        assert prefix[j] == buckets[i];
      }
    }
  }

  /** The body of `dumpMenu`'s second `forEach`: one bucket's row. */
  method FormatRow(maxLength: int, bucket: Bucket) returns (line: string)
    ensures line == Row(maxLength, bucket)
  {
    line := "";
    if bucket.id < 10 {
      line := line + " ";
    }
    var sizeSize := |NumberToString(bucket.numFiles)|;
    var gap := Padding((maxLength - |bucket.name|) + (7 - sizeSize), ' ');
    line := line + NumberToString(bucket.id) + ". " + bucket.name + gap;
    if bucket.numFiles > -1 {
      line := line + NumberToString(bucket.numFiles);
    } else {
      line := line + " -";
    }
  }

  /** The column width is the least even number that every name fits in. */
  lemma ColumnWidthIsLeastEven(buckets: seq<Bucket>, w: int)
    requires w % 2 == 0 && forall b | b in buckets :: |b.name| <= w
    ensures ColumnWidth(buckets) % 2 == 0
    ensures forall b | b in buckets :: |b.name| <= ColumnWidth(buckets)
    ensures w >= 0 ==> ColumnWidth(buckets) <= w
  {
  }

  /** The menu has a header, a rule of width+12 dashes and one row per
      bucket; the header is width+11 wide, but never narrower than its
      three captions (23 characters). */
  lemma MenuFrame(buckets: seq<Bucket>)
    ensures |Render(buckets)| == |buckets| + 2
    ensures |Render(buckets)[0]| == if ColumnWidth(buckets) + 11 > 23 then ColumnWidth(buckets) + 11 else 23
    ensures |Render(buckets)[1]| == ColumnWidth(buckets) + 12
    ensures forall k | 0 <= k < |Render(buckets)[1]| :: Render(buckets)[1][k] == '-'
  {
  }

  /** An id below 100 has one or two digits; a count below 10^7 has at most
      seven characters, the minus sign of -1 included. */
  lemma FieldLengths(b: Bucket)
    requires 0 <= b.id < 100
    requires -1 <= b.numFiles < 10000000
    ensures |NumberToString(b.id)| == if b.id < 10 then 1 else 2
    ensures |NumberToString(b.numFiles)| <= 7
  {
    if b.id >= 10 {
      assert Decimal(b.id) == Decimal(b.id / 10) + [DecimalDigit(b.id % 10)];
    }
    assert Pow10(7) == 10000000 by {
      assert Pow10(1) == 10;
      assert Pow10(2) == 100;
      assert Pow10(3) == 1000;
      assert Pow10(4) == 10000;
      assert Pow10(5) == 100000;
      assert Pow10(6) == 1000000;
    }
    if b.numFiles >= 0 {
      DecimalLength(b.numFiles, 7);
    }
  }

  /** Every row of a bucket whose id has at most two digits and whose count
      has at most seven characters ends exactly one column before the rule. */
  lemma RowWidth(buckets: seq<Bucket>, k: nat)
    requires k < |buckets|
    requires 0 <= buckets[k].id < 100
    requires -1 <= buckets[k].numFiles < 10000000
    ensures |Render(buckets)[k + 2]| == ColumnWidth(buckets) + 11
  {
    var b := buckets[k];
    var width := ColumnWidth(buckets);
    assert b in buckets;
    assert |b.name| <= width;
    FieldLengths(b);
    assert |Row(width, b)| == width + 11;
    assert Render(buckets)[k + 2] == Row(width, b);
  }

  /** A row starts with a space exactly when its id is below 10. */
  lemma RowLeadingSpace(buckets: seq<Bucket>, k: nat)
    requires k < |buckets|
    ensures Render(buckets)[k + 2][0] == ' ' <==> buckets[k].id < 10
  {
    var b := buckets[k];
    assert Render(buckets)[k + 2] == Row(ColumnWidth(buckets), b);
  }

  /** A row ends in " -" when the count is unknown, and in the count's
      digits otherwise. */
  lemma RowCountField(buckets: seq<Bucket>, k: nat)
    requires k < |buckets|
    ensures var row := Render(buckets)[k + 2];
      row[|row| - 1] == '-' <==> buckets[k].numFiles <= -1
    ensures buckets[k].numFiles <= -1 ==>
      var row := Render(buckets)[k + 2]; row[|row| - 2..] == " -"
    ensures buckets[k].numFiles > -1 ==>
      var row := Render(buckets)[k + 2];
      var count := Decimal(buckets[k].numFiles);
      |count| <= |row| && row[|row| - |count|..] == count
  {
    var b := buckets[k];
    assert Render(buckets)[k + 2] == Row(ColumnWidth(buckets), b);
  }
}
