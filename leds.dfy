/**
 * The LED store as values: ten light arrays of 1000 slots each, a parallel
 * table of colour names whose slot 0 holds the array's name, and the ten
 * declared sizes. A Java `null` slot is `Null`. These functions say what the
 * declare, update, write, info and save statements do to the store and what
 * they print; the class in module Interpreter does the same in place.
 */
module Leds {
  import opened Wrappers
  import opened JavaLong
  import opened Values
  import opened Colour

  const ARRAYS: nat := 10
  const CAPACITY: nat := 1000

  datatype Text = Null | Text(s: string)

  /** String concatenation prints a `null` slot as "null". */
  function Show(t: Text): string
  {
    match t
    case Null => "null"
    case Text(s) => s
  }

  ghost predicate IsGrid(g: seq<seq<Text>>)
  {
    |g| == ARRAYS && forall p :: 0 <= p < ARRAYS ==> |g[p]| == CAPACITY
  }

  datatype Store = Store(lights: seq<seq<Text>>, colour: seq<seq<Text>>, lednums: seq<int>)

  ghost predicate Valid(s: Store)
  {
    IsGrid(s.lights) && IsGrid(s.colour) && |s.lednums| == ARRAYS
  }

  /** The store as the interpreter starts: every slot null, every size 0. */
  function Initial(): (s: Store)
    ensures Valid(s)
  {
    var row := seq(CAPACITY, _ => Null);
    Store(seq(ARRAYS, _ => row), seq(ARRAYS, _ => row), seq(ARRAYS, _ => 0))
  }

  /** The array-name that position `p` currently carries is `name`. */
  predicate Named(colour: seq<seq<Text>>, p: int, name: string)
    requires IsGrid(colour) && 0 <= p < ARRAYS
  {
    colour[p][0] == Text(name)
  }

  /**
   * The name search of update, write, info and save, from position `p` on:
   * the first array named `name`; a position with no name yet stops the
   * search with a NullPointerException.
   */
  function FindFrom(colour: seq<seq<Text>>, name: string, p: nat): (r: Result<Option<nat>, Error>)
    requires IsGrid(colour) && p <= ARRAYS
    ensures r.Ok? && r.value.Some? ==>
      && p <= r.value.value < ARRAYS && Named(colour, r.value.value, name)
      && forall q :: p <= q < r.value.value ==> colour[q][0].Text? && !Named(colour, q, name)
    ensures r.Ok? && r.value.None? <==> forall q :: p <= q < ARRAYS ==> colour[q][0].Text? && !Named(colour, q, name)
    ensures r.Err? ==> r.error == NullPointer
    ensures r.Err? ==> exists q :: p <= q < ARRAYS && colour[q][0].Null? && forall j :: p <= j < q ==> !Named(colour, j, name)
    decreases ARRAYS - p
  {
    if p == ARRAYS then Ok(None)
    else if colour[p][0].Null? then Err(NullPointer)
    else if colour[p][0].s == name then Ok(Some(p))
    else FindFrom(colour, name, p + 1)
  }

  function Find(s: Store, name: string): Result<Option<nat>, Error>
    requires Valid(s)
  {
    FindFrom(s.colour, name, 0)
  }

  /** The lowest position from `p` on whose size is 0. */
  function FirstFreeFrom(nums: seq<int>, p: nat): (r: Option<nat>)
    requires |nums| == ARRAYS && p <= ARRAYS
    ensures r.Some? ==> p <= r.value < ARRAYS && nums[r.value] == 0 && forall q :: p <= q < r.value ==> nums[q] != 0
    ensures r.None? <==> forall q :: p <= q < ARRAYS ==> nums[q] != 0
    decreases ARRAYS - p
  {
    if p == ARRAYS then None
    else if nums[p] == 0 then Some(p)
    else FirstFreeFrom(nums, p + 1)
  }

  function FirstFree(nums: seq<int>): Option<nat>
    requires |nums| == ARRAYS
  {
    FirstFreeFrom(nums, 0)
  }

  /** Slots 1 to `m`, and slot 1 in any case, set to `v`; `m` is the bound of the initialisation loop. */
  function InitRow(row: seq<Text>, m: int, v: string): (r: seq<Text>)
    requires |row| == CAPACITY && m < CAPACITY
    ensures |r| == CAPACITY
  {
    seq(CAPACITY, i requires 0 <= i < CAPACITY => if i == 1 || 1 <= i <= m then Text(v) else row[i])
  }

  /**
   * Declaring an array: the first position with size 0 gets the size and the
   * name; when there is none, position 0 is the target and no size or name
   * changes. The target's slots are then reset using the size of position 0,
   * whatever array was declared; a bound of 1000 or more runs off the array.
   */
  function Declare(s: Store, size: int, name: string): (r: Result<Store, Error>)
    requires Valid(s)
    ensures r.Ok? ==> Valid(r.value)
  {
    var free := FirstFree(s.lednums);
    var next := if free.Some? then free.value else 0;
    var nums := if free.Some? then s.lednums[next := size] else s.lednums;
    var names := if free.Some? then s.colour[next := s.colour[next][0 := Text(name)]] else s.colour;
    if nums[0] >= CAPACITY then Err(IndexOutOfBounds)
    else
      Ok(Store(s.lights[next := InitRow(s.lights[next], nums[0], "0-0-0")],
               names[next := InitRow(names[next], nums[0], "OFF")],
               nums))
  }

  /** The "R-G-B" record an update stores. */
  function RgbText(red: Long, green: Long, blue: Long): string
  {
    ToString(red) + "-" + ToString(green) + "-" + ToString(blue)
  }

  /**
   * Updating one light of the array named `name`: the slot gets the classified
   * colour and the RGB record. The index is not checked against the array's
   * size, only against the 1000-slot arrays.
   */
  function Update(s: Store, name: string, index: int, red: Long, green: Long, blue: Long): (r: Result<Store, Error>)
    requires Valid(s)
    ensures r.Ok? ==> Valid(r.value)
  {
    match Find(s, name)
    case Err(e) => Err(e)
    case Ok(None) => Err(ArrayNotFound)
    case Ok(Some(p)) =>
      if !(0 <= index < CAPACITY) then Err(IndexOutOfBounds)
      else
        Ok(Store(s.lights[p := s.lights[p][index := Text(RgbText(red, green, blue))]],
                 s.colour[p := s.colour[p][index := Text(Label(Classify(red, green, blue)))]],
                 s.lednums))
  }

  /** The row count of the rendering loops: `n / 3`, plus one when `n % 3 != 0`, in Java's truncating arithmetic. */
  function NumLines(n: int): int
  {
    Quot(n, 3) + (if Rem(n, 3) != 0 then 1 else 0)
  }

  /** How many times the row loop body runs. */
  function RowCount(n: int): nat
  {
    if NumLines(n) > 0 then NumLines(n) else 0
  }

  /** The three slots row `k` shows. */
  function Cells(row: seq<Text>, k: nat): (c: seq<string>)
    requires |row| == CAPACITY && 3 * k + 3 < CAPACITY
    ensures |c| == 3
  {
    [Show(row[3 * k + 1]), Show(row[3 * k + 2]), Show(row[3 * k + 3])]
  }

  /** Each cell preceded by the delimiter. */
  function Join(delim: string, cells: seq<string>): string
  {
    if cells == [] then "" else delim + cells[0] + Join(delim, cells[1..])
  }

  /** The rows of one array; a row count reaching past slot 999 fails with the array index. */
  function Rows(row: seq<Text>, n: int, delim: string): (r: Result<seq<string>, Error>)
    requires |row| == CAPACITY
    ensures r.Ok? ==> |r.value| == RowCount(n)
    ensures r.Err? <==> 3 * RowCount(n) >= CAPACITY
  {
    var k := RowCount(n);
    if 3 * k >= CAPACITY then Err(IndexOutOfBounds)
    else Ok(seq(k, j requires 0 <= j < k => Join(delim, Cells(row, j))))
  }

  const RULE: string := "||-------------------------------------||"

  /** Every row followed by the ruling line. */
  function Framed(rows: seq<string>): (r: seq<string>)
    ensures |r| == 2 * |rows|
    ensures forall k :: 0 <= k < |rows| ==> r[2 * k] == rows[k] && r[2 * k + 1] == RULE
  {
    if rows == [] then [] else [rows[0], RULE] + Framed(rows[1..])
  }

  /** The console lines of a dump of table `table` (lights for write, colours for info). */
  function Dump(s: Store, table: seq<seq<Text>>, name: string): (r: Result<seq<string>, Error>)
    requires Valid(s) && IsGrid(table)
  {
    match Find(s, name)
    case Err(e) => Err(e)
    case Ok(None) => Ok(["", RULE])
    case Ok(Some(p)) =>
      match Rows(table[p], s.lednums[p], "||")
      case Err(e) => Err(e)
      case Ok(rows) => Ok(["", RULE] + Framed(rows))
  }

  /** What write prints. */
  function WriteLines(s: Store, name: string): Result<seq<string>, Error>
    requires Valid(s)
  {
    Dump(s, s.lights, name)
  }

  /** What info prints: the dump of the colour names, then an empty line. */
  function InfoLines(s: Store, name: string): Result<seq<string>, Error>
    requires Valid(s)
  {
    match Dump(s, s.colour, name)
    case Err(e) => Err(e)
    case Ok(lines) => Ok(lines + [""])
  }

  /** The position save writes out: the named array, or position 0 when no array has the name. */
  function SaveTarget(s: Store, name: string): Result<nat, Error>
    requires Valid(s)
  {
    match Find(s, name)
    case Err(e) => Err(e)
    case Ok(None) => Ok(0)
    case Ok(Some(p)) => Ok(p)
  }

  /** The lines save writes into the file `name + ".txt"`. */
  function SaveLines(s: Store, name: string): Result<seq<string>, Error>
    requires Valid(s)
  {
    match SaveTarget(s, name)
    case Err(e) => Err(e)
    case Ok(p) => Rows(s.lights[p], s.lednums[p], "|")
  }

  // ---------------------------------------------------------------------
  // Properties

  function Max(a: int, b: int): int { if a < b then b else a }

  /**
   * Declaring while a position is free: the lowest free position gets the size
   * and the name, no other array changes, and the new array's slots 1 to
   * max(1, size of position 0) read "0-0-0" and "OFF" while its light in
   * slot 0 and its later slots keep what they held.
   */
  lemma DeclareIntoFreePosition(s: Store, size: int, name: string, p: nat)
    requires Valid(s) && FirstFree(s.lednums) == Some(p)
    requires s.lednums[p := size][0] < CAPACITY
    ensures Declare(s, size, name).Ok?
    ensures forall q :: 0 <= q < p ==> s.lednums[q] != 0
    ensures var t := Declare(s, size, name).value;
      && t.lednums == s.lednums[p := size]
      && Named(t.colour, p, name)
      && t.lights[p][0] == s.lights[p][0]
      && (forall q :: 0 <= q < ARRAYS && q != p ==> t.lights[q] == s.lights[q] && t.colour[q] == s.colour[q])
      && (forall i :: 1 <= i <= Max(1, t.lednums[0]) ==> t.lights[p][i] == Text("0-0-0") && t.colour[p][i] == Text("OFF"))
      && (forall i :: Max(1, t.lednums[0]) < i < CAPACITY ==> t.lights[p][i] == s.lights[p][i] && t.colour[p][i] == s.colour[p][i])
  {
    var t := Declare(s, size, name).value;
    assert t.colour[p] == InitRow(s.colour[p][0 := Text(name)], t.lednums[0], "OFF");
  }

  /**
   * Declaring when all ten sizes are nonzero: nothing is declared, no size or
   * name changes, and array 0's slots 1 to max(1, its size) are reset while
   * its light in slot 0 and its later slots keep what they held.
   */
  lemma DeclareWhenFull(s: Store, size: int, name: string)
    requires Valid(s) && forall q :: 0 <= q < ARRAYS ==> s.lednums[q] != 0
    requires s.lednums[0] < CAPACITY
    ensures Declare(s, size, name).Ok?
    ensures var t := Declare(s, size, name).value;
      && t.lednums == s.lednums
      && (forall q :: 0 <= q < ARRAYS ==> t.colour[q][0] == s.colour[q][0])
      && (forall q :: 0 < q < ARRAYS ==> t.lights[q] == s.lights[q] && t.colour[q] == s.colour[q])
      && t.lights[0][0] == s.lights[0][0]
      && (forall i :: 1 <= i <= Max(1, s.lednums[0]) ==> t.lights[0][i] == Text("0-0-0") && t.colour[0][i] == Text("OFF"))
      && (forall i :: Max(1, s.lednums[0]) < i < CAPACITY ==> t.lights[0][i] == s.lights[0][i] && t.colour[0][i] == s.colour[0][i])
  {
    assert FirstFree(s.lednums).None?;
  }

  /** Declaring fails exactly when the initialisation bound, the size then held by position 0, reaches 1000. */
  lemma DeclareFailsIff(s: Store, size: int, name: string)
    requires Valid(s)
    ensures Declare(s, size, name).Err? <==>
      (if FirstFree(s.lednums) == Some(0) then size else s.lednums[0]) >= CAPACITY
  {
  }

  /**
   * Updating a light of a found array, at an index inside the 1000-slot arrays:
   * only that slot of the light table and of the colour table change, to the
   * RGB record and the classified name; every size is unchanged.
   */
  lemma UpdateChangesOneSlot(s: Store, name: string, index: int, red: Long, green: Long, blue: Long, p: nat)
    requires Valid(s) && Find(s, name) == Ok(Some(p)) && 0 <= index < CAPACITY
    ensures Update(s, name, index, red, green, blue).Ok?
    ensures var t := Update(s, name, index, red, green, blue).value;
      && t.lednums == s.lednums
      && t.lights[p][index] == Text(RgbText(red, green, blue))
      && t.colour[p][index] == Text(Label(Classify(red, green, blue)))
      && (forall q, i :: 0 <= q < ARRAYS && 0 <= i < CAPACITY && (q != p || i != index) ==>
            t.lights[q][i] == s.lights[q][i] && t.colour[q][i] == s.colour[q][i])
  {
  }

  /** An update fails exactly when the search fails, finds no array, or the index lies outside 0..999. */
  lemma UpdateFailsIff(s: Store, name: string, index: int, red: Long, green: Long, blue: Long)
    requires Valid(s)
    ensures Update(s, name, index, red, green, blue).Err? <==>
      Find(s, name).Err? || Find(s, name) == Ok(None) || !(0 <= index < CAPACITY)
    ensures Find(s, name) == Ok(None) ==> Update(s, name, index, red, green, blue) == Err(ArrayNotFound)
  {
  }

  /**
   * The separators of a record are found from its text: a spelling followed
   * by "-" is the part before the first "-" after its first character.
   */
  lemma SplitAtSeparator(a1: string, t1: string, a2: string, t2: string)
    requires |a1| > 0 && forall i :: 1 <= i < |a1| ==> IsDigit(a1[i])
    requires |a2| > 0 && forall i :: 1 <= i < |a2| ==> IsDigit(a2[i])
    requires a1 + "-" + t1 == a2 + "-" + t2
    ensures a1 == a2 && t1 == t2
  {
    var s := a1 + "-" + t1;
    assert s == a2 + "-" + t2;
    assert s[|a1|] == '-' && s[|a2|] == '-';
    assert |a1| == |a2|;
    assert a1 == s[..|a1|] == a2;
    assert t1 == s[|a1| + 1..] == t2;
  }

  /** Two records of three spellings joined by "-" are equal only when their parts are. */
  lemma RecordParts(r1: string, g1: string, b1: string, r2: string, g2: string, b2: string)
    requires |r1| > 0 && forall i :: 1 <= i < |r1| ==> IsDigit(r1[i])
    requires |r2| > 0 && forall i :: 1 <= i < |r2| ==> IsDigit(r2[i])
    requires |g1| > 0 && forall i :: 1 <= i < |g1| ==> IsDigit(g1[i])
    requires |g2| > 0 && forall i :: 1 <= i < |g2| ==> IsDigit(g2[i])
    requires r1 + "-" + g1 + "-" + b1 == r2 + "-" + g2 + "-" + b2
    ensures r1 == r2 && g1 == g2 && b1 == b2
  {
    assert r1 + "-" + g1 + "-" + b1 == r1 + "-" + (g1 + "-" + b1);
    assert r2 + "-" + g2 + "-" + b2 == r2 + "-" + (g2 + "-" + b2);
    SplitAtSeparator(r1, g1 + "-" + b1, r2, g2 + "-" + b2);
    SplitAtSeparator(g1, b1, g2, b2);
  }

  /** The "R-G-B" record an update stores determines the three channels it was built from. */
  lemma RgbTextInjective(r1: Long, g1: Long, b1: Long, r2: Long, g2: Long, b2: Long)
    requires RgbText(r1, g1, b1) == RgbText(r2, g2, b2)
    ensures r1 == r2 && g1 == g2 && b1 == b2
  {
    ToStringShape(r1);
    ToStringShape(r2);
    ToStringShape(g1);
    ToStringShape(g2);
    RecordParts(ToString(r1), ToString(g1), ToString(b1), ToString(r2), ToString(g2), ToString(b2));
    ToStringInjective(r1, r2);
    ToStringInjective(g1, g2);
    ToStringInjective(b1, b2);
  }

  /** Index 0 is not protected: updating it overwrites the array's name with a colour label. */
  lemma UpdateSlotZeroRenames(s: Store, name: string, red: Long, green: Long, blue: Long, p: nat)
    requires Valid(s) && Find(s, name) == Ok(Some(p))
    ensures Update(s, name, 0, red, green, blue).Ok?
    ensures Named(Update(s, name, 0, red, green, blue).value.colour, p, Label(Classify(red, green, blue)))
  {
  }

  /**
   * The row count is the ceiling of n / 3 for every size n >= 0; in Java's
   * truncating arithmetic the sizes -1 and -2 also give one row, and smaller
   * sizes none.
   */
  lemma NumLinesIsCeiling(n: int)
    ensures n >= 0 ==> RowCount(n) == (n + 2) / 3
    ensures 3 * (RowCount(n) - 1) < n <= 3 * RowCount(n) || n <= 0
    ensures n == -1 || n == -2 ==> RowCount(n) == 1
    ensures n <= -3 ==> RowCount(n) == 0
  {
    QuotRem(n, 3);
    if n < 0 {
      assert Quot(n, 3) == -((-n) / 3);
    }
  }

  /** A row is the three cells, each preceded by the delimiter: "||a||b||c" on the console, "|a|b|c" in a file. */
  lemma JoinThree(delim: string, a: string, b: string, c: string)
    ensures Join(delim, [a, b, c]) == delim + a + delim + b + delim + c
  {
    assert [a, b, c][1..] == [b, c];
    assert [b, c][1..] == [c];
    assert [c][1..] == [];
    assert Join(delim, [c]) == delim + c;
    assert Join(delim, [b, c]) == delim + b + (delim + c);
  }

  /**
   * Writing a found array with n lights prints the framing lines and then
   * RowCount(n) rows, each followed by a ruling line; row k shows light slots
   * 3k+1, 3k+2 and 3k+3.
   */
  lemma WriteShowsRows(s: Store, name: string, p: nat)
    requires Valid(s) && Find(s, name) == Ok(Some(p)) && 3 * RowCount(s.lednums[p]) < CAPACITY
    ensures WriteLines(s, name).Ok?
    ensures var lines := WriteLines(s, name).value;
      && |lines| == 2 + 2 * RowCount(s.lednums[p])
      && lines[..2] == ["", RULE]
      && forall k :: 0 <= k < RowCount(s.lednums[p]) ==>
           lines[2 + 2 * k] == Join("||", Cells(s.lights[p], k)) && lines[3 + 2 * k] == RULE
  {
    var rows := Rows(s.lights[p], s.lednums[p], "||").value;
    FramedAfterHeader(rows);
  }

  /** Indexing into the header followed by framed rows. */
  lemma FramedAfterHeader(rows: seq<string>)
    ensures var lines := ["", RULE] + Framed(rows);
      && |lines| == 2 + 2 * |rows| && lines[..2] == ["", RULE]
      && forall k :: 0 <= k < |rows| ==> lines[2 + 2 * k] == rows[k] && lines[3 + 2 * k] == RULE
  {
    var lines := ["", RULE] + Framed(rows);
    forall k | 0 <= k < |rows| ensures lines[2 + 2 * k] == rows[k] && lines[3 + 2 * k] == RULE {
      assert lines[2 + 2 * k] == Framed(rows)[2 * k];
      assert lines[3 + 2 * k] == Framed(rows)[2 * k + 1];
    }
  }

  /** Info prints the same frame over the colour names, and one empty line after it. */
  lemma InfoShowsRows(s: Store, name: string, p: nat)
    requires Valid(s) && Find(s, name) == Ok(Some(p)) && 3 * RowCount(s.lednums[p]) < CAPACITY
    ensures InfoLines(s, name).Ok?
    ensures var lines := InfoLines(s, name).value;
      && |lines| == 3 + 2 * RowCount(s.lednums[p])
      && lines[..2] == ["", RULE] && lines[|lines| - 1] == ""
      && forall k :: 0 <= k < RowCount(s.lednums[p]) ==>
           lines[2 + 2 * k] == Join("||", Cells(s.colour[p], k)) && lines[3 + 2 * k] == RULE
  {
    var rows := Rows(s.colour[p], s.lednums[p], "||").value;
    FramedAfterHeader(rows);
    var lines := ["", RULE] + Framed(rows);
    assert InfoLines(s, name) == Ok(lines + [""]);
    assert forall k :: 0 <= k < |lines| ==> (lines + [""])[k] == lines[k];
  }

  /** Save of a found array writes the rows write prints, cell for cell, with the single delimiter and no ruling lines. */
  lemma SaveMatchesWrite(s: Store, name: string, p: nat)
    requires Valid(s) && Find(s, name) == Ok(Some(p)) && 3 * RowCount(s.lednums[p]) < CAPACITY
    ensures SaveLines(s, name).Ok? && WriteLines(s, name).Ok?
    ensures |SaveLines(s, name).value| == RowCount(s.lednums[p])
    ensures forall k :: 0 <= k < RowCount(s.lednums[p]) ==>
      SaveLines(s, name).value[k] == Join("|", Cells(s.lights[p], k)) &&
      WriteLines(s, name).value[2 + 2 * k] == Join("||", Cells(s.lights[p], k))
  {
    WriteShowsRows(s, name, p);
  }

  /** Save of a name no array has, once all ten positions are named, writes array 0. */
  lemma SaveUnknownWritesArrayZero(s: Store, name: string)
    requires Valid(s) && Find(s, name) == Ok(None)
    ensures forall q :: 0 <= q < ARRAYS ==> s.colour[q][0].Text?
    ensures SaveLines(s, name) == Rows(s.lights[0], s.lednums[0], "|")
  {
  }

  /** Write and info of an unknown name print only the framing lines, which needs all ten positions named. */
  lemma DumpUnknownPrintsFrame(s: Store, name: string)
    requires Valid(s) && Find(s, name) == Ok(None)
    ensures WriteLines(s, name) == Ok(["", RULE])
    ensures InfoLines(s, name) == Ok(["", RULE, ""])
    ensures forall q :: 0 <= q < ARRAYS ==> s.colour[q][0].Text?
  {
    assert ["", RULE] + [""] == ["", RULE, ""];
  }

  /** Nine lights declared on a fresh store and saved give three rows of "0-0-0". */
  lemma DeclareNineThenSave(name: string)
    ensures Declare(Initial(), 9, name).Ok?
    ensures SaveLines(Declare(Initial(), 9, name).value, name) == Ok(["|0-0-0|0-0-0|0-0-0", "|0-0-0|0-0-0|0-0-0", "|0-0-0|0-0-0|0-0-0"])
  {
    var t := NineDeclared(name);
    NineOffRows(t.lights[0]);
  }

  /** A row whose slots 1 to 9 are off, rendered at size 9 for a file, is three rows of three "0-0-0" cells. */
  lemma NineOffRows(row: seq<Text>)
    requires |row| == CAPACITY && forall i :: 1 <= i <= 9 ==> row[i] == Text("0-0-0")
    ensures Rows(row, 9, "|") == Ok(["|0-0-0|0-0-0|0-0-0", "|0-0-0|0-0-0|0-0-0", "|0-0-0|0-0-0|0-0-0"])
  {
    assert RowCount(9) == 3 by { NumLinesIsCeiling(9); }
    var rows, cells := Rows(row, 9, "|").value, "|0-0-0|0-0-0|0-0-0";
    forall k | 0 <= k < 3 ensures rows[k] == cells {
      OffCells(row, k);
    }
    assert rows == [cells, cells, cells];
  }

  lemma OffCells(row: seq<Text>, k: nat)
    requires |row| == CAPACITY && k < 3 && forall i :: 1 <= i <= 9 ==> row[i] == Text("0-0-0")
    ensures Join("|", Cells(row, k)) == "|0-0-0|0-0-0|0-0-0"
  {
    assert Cells(row, k) == ["0-0-0", "0-0-0", "0-0-0"];
    JoinThree("|", "0-0-0", "0-0-0", "0-0-0");
  }



  /** Nine lights declared on a fresh store land in array 0, named `name`, with slots 1 to 9 off. */
  lemma NineDeclared(name: string) returns (t: Store)
    ensures Declare(Initial(), 9, name) == Ok(t) && Valid(t)
    ensures SaveTarget(t, name) == Ok(0) && t.lednums[0] == 9
    ensures forall i :: 1 <= i <= 9 ==> t.lights[0][i] == Text("0-0-0")
  {
    var s := Initial();
    assert FirstFree(s.lednums) == Some(0);
    DeclareIntoFreePosition(s, 9, name, 0);
    t := Declare(s, 9, name).value;
    assert Find(t, name) == Ok(Some(0));
  }

}
