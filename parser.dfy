/**
 * The LED store as the interpreter keeps it: a class whose two 10 x 1000
 * tables and ten sizes are arrays updated in place. Each statement that
 * touches the store is a method proved to do what the corresponding
 * function of module Leds says, on the value `Model()` of the arrays.
 */
module Interpreter {
  import opened Wrappers
  import opened JavaLong
  import opened Values
  import opened Colour
  import Leds

  /** Row `p` of a table, as a sequence. */
  ghost function Row(a: array2<Leds.Text>, p: int): (r: seq<Leds.Text>)
    reads a
    requires 0 <= p < a.Length0
    ensures |r| == a.Length1
  {
    seq(a.Length1, j requires 0 <= j < a.Length1 reads a => a[p, j])
  }

  /** The whole table, as a sequence of rows. */
  ghost function Grid(a: array2<Leds.Text>): (g: seq<seq<Leds.Text>>)
    reads a
    ensures |g| == a.Length0
  {
    seq(a.Length0, p requires 0 <= p < a.Length0 reads a => Row(a, p))
  }

  /** Cell by cell, table `a` holds `g`. */
  ghost predicate Holds(a: array2<Leds.Text>, g: seq<seq<Leds.Text>>)
    reads a
  {
    && |g| == a.Length0
    && (forall p :: 0 <= p < |g| ==> |g[p]| == a.Length1)
    && forall p, j :: 0 <= p < a.Length0 && 0 <= j < a.Length1 ==> a[p, j] == g[p][j]
  }

  /** A table that holds `g` cell by cell is `g`. */
  lemma HoldsGrid(a: array2<Leds.Text>, g: seq<seq<Leds.Text>>)
    requires Holds(a, g)
    ensures Grid(a) == g
  {
    forall p | 0 <= p < a.Length0 ensures Grid(a)[p] == g[p] {
      assert Row(a, p) == g[p];
    }
  }

  /** Every table holds its own sequence view. */
  lemma GridHolds(a: array2<Leds.Text>)
    ensures Holds(a, Grid(a))
  {
  }

  class Parser {
    const lights: array2<Leds.Text>
    const colour: array2<Leds.Text>
    const lednums: array<int>

    ghost predicate Valid()
    {
      && lights.Length0 == Leds.ARRAYS && lights.Length1 == Leds.CAPACITY
      && colour.Length0 == Leds.ARRAYS && colour.Length1 == Leds.CAPACITY
      && lednums.Length == Leds.ARRAYS
      && lights != colour
    }

    /** The store the arrays hold. */
    ghost function Model(): (s: Leds.Store)
      reads lights, colour, lednums
      requires Valid()
      ensures Leds.Valid(s)
    {
      Leds.Store(Grid(lights), Grid(colour), lednums[..])
    }

    /** Fresh arrays: every slot null, every size 0. */
    constructor ()
      ensures Valid() && Model() == Leds.Initial()
      ensures fresh(lights) && fresh(colour) && fresh(lednums)
    {
      lights := new Leds.Text[Leds.ARRAYS, Leds.CAPACITY]((_, _) => Leds.Null);
      colour := new Leds.Text[Leds.ARRAYS, Leds.CAPACITY]((_, _) => Leds.Null);
      lednums := new int[Leds.ARRAYS](_ => 0);
      new;
      HoldsGrid(lights, Leds.Initial().lights);
      HoldsGrid(colour, Leds.Initial().colour);
    }

    /**
     * The name search: the first position named `name`, none when all ten
     * positions carry other names, and a NullPointerException at the first
     * unnamed position reached.
     */
    method Search(name: string) returns (r: Result<Option<nat>, Error>)
      requires Valid()
      ensures r == Leds.Find(Model(), name)
    {
      var p := 0;
      while p < Leds.ARRAYS
        invariant 0 <= p <= Leds.ARRAYS
        invariant Leds.FindFrom(Grid(colour), name, p) == Leds.Find(Model(), name)
      {
        if colour[p, 0].Null? {
          return Err(NullPointer);
        }
        if colour[p, 0].s == name {
          return Ok(Some(p));
        }
        p := p + 1;
      }
      return Ok(None);
    }

    /**
     * The position search of a declaration: the first position whose size is
     * 0 takes the size and the name; when every size is nonzero nothing
     * changes and position 0 is the one reset afterwards.
     */
    method Claim(size: int, name: string) returns (next: nat)
      requires Valid()
      modifies colour, lednums
      ensures var free := Leds.FirstFree(old(lednums[..]));
        && next == (if free.Some? then free.value else 0)
        && lednums[..] == (if free.Some? then old(lednums[..])[next := size] else old(lednums[..]))
        && Grid(colour) == (if free.Some? then old(Grid(colour))[next := old(Grid(colour))[next][0 := Leds.Text(name)]] else old(Grid(colour)))
    {
      ghost var nums0 := lednums[..];
      ghost var names0 := Grid(colour);
      GridHolds(colour);
      ghost var names := names0;
      next := 0;
      var p := 0;
      while p < Leds.ARRAYS
        invariant 0 <= p <= 2 * Leds.ARRAYS
        invariant Holds(colour, names)
        invariant p <= Leds.ARRAYS ==>
          && next == 0 && names == names0 && lednums[..] == nums0
          && Leds.FirstFreeFrom(nums0, p) == Leds.FirstFree(nums0)
        invariant p > Leds.ARRAYS ==>
          && Leds.FirstFree(nums0) == Some(next)
          && lednums[..] == nums0[next := size]
          && names == names0[next := names0[next][0 := Leds.Text(name)]]
      {
        if lednums[p] == 0 {
          lednums[p] := size;
          colour[p, 0] := Leds.Text(name);
          names := names[p := names[p][0 := Leds.Text(name)]];
          next := p;
          p := p + Leds.ARRAYS;
        }
        p := p + 1;
      }
      HoldsGrid(colour, names);
    }

    /**
     * The reset loop of a declaration: slots 1 to the size of position 0,
     * and slot 1 in any case, of position `next` become "0-0-0" and "OFF".
     * A bound of 1000 or more runs off the row; the slots reset by then stay
     * reset.
     */
    method Reset(next: nat) returns (r: Result<(), Error>)
      requires Valid() && next < Leds.ARRAYS
      modifies lights, colour
      ensures r.Ok? <==> lednums[0] < Leds.CAPACITY
      ensures r.Err? ==> r.error == IndexOutOfBounds
      ensures r.Ok? ==>
        && Grid(lights) == old(Grid(lights))[next := Leds.InitRow(old(Grid(lights))[next], lednums[0], "0-0-0")]
        && Grid(colour) == old(Grid(colour))[next := Leds.InitRow(old(Grid(colour))[next], lednums[0], "OFF")]
    {
      ghost var g := Grid(lights);
      ghost var h := Grid(colour);
      GridHolds(lights);
      GridHolds(colour);
      var i := 1;
      while i <= lednums[0]
        invariant 1 <= i <= Leds.CAPACITY && (i == 1 || i <= lednums[0] + 1)
        invariant forall q, j :: 0 <= q < Leds.ARRAYS && 0 <= j < Leds.CAPACITY ==>
          lights[q, j] == (if q == next && 1 <= j < i then Leds.Text("0-0-0") else g[q][j])
        invariant forall q, j :: 0 <= q < Leds.ARRAYS && 0 <= j < Leds.CAPACITY ==>
          colour[q, j] == (if q == next && 1 <= j < i then Leds.Text("OFF") else h[q][j])
      {
        if i >= Leds.CAPACITY {
          // lights[next][i] lies past the end of the row
          return Err(IndexOutOfBounds);
        }
        lights[next, i] := Leds.Text("0-0-0");
        colour[next, i] := Leds.Text("OFF");
        i := i + 1;
      }
      lights[next, 1] := Leds.Text("0-0-0");
      colour[next, 1] := Leds.Text("OFF");
      HoldsGrid(lights, g[next := Leds.InitRow(g[next], lednums[0], "0-0-0")]);
      HoldsGrid(colour, h[next := Leds.InitRow(h[next], lednums[0], "OFF")]);
      return Ok(());
    }

    /**
     * Declaring an array of `size` lights named `name`: the claim, then the
     * reset. On an exception the arrays are left as far as the reset had got.
     */
    method Declare(size: int, name: string) returns (r: Result<(), Error>)
      requires Valid()
      modifies lights, colour, lednums
      ensures r.Ok? <==> Leds.Declare(old(Model()), size, name).Ok?
      ensures r.Ok? ==> Leds.Declare(old(Model()), size, name) == Ok(Model())
      ensures r.Err? ==> r.error == IndexOutOfBounds
    {
      var next := Claim(size, name);
      r := Reset(next);
    }

    /**
     * Updating light `index` of the array named `name` to the colour that
     * `red`, `green` and `blue` classify as. Every exception is raised before
     * anything is written.
     */
    method Update(name: string, index: int, red: Long, green: Long, blue: Long) returns (r: Result<(), Error>)
      requires Valid()
      modifies lights, colour
      ensures Leds.Update(old(Model()), name, index, red, green, blue) == if r.Ok? then Ok(Model()) else Err(r.error)
      ensures r.Err? ==> Model() == old(Model())
    {
      ghost var s := Model();
      var found := Search(name);
      if found.Err? {
        return Err(found.error);
      }
      var arraynum := if found.value.Some? then found.value.value as int else -1;
      var shade := Label(Classify(red, green, blue));
      if arraynum == -1 {
        // "led array not found" is printed, then colour[-1] is indexed
        return Err(ArrayNotFound);
      }
      if !(0 <= index < Leds.CAPACITY) {
        return Err(IndexOutOfBounds);
      }
      GridHolds(lights);
      GridHolds(colour);
      colour[arraynum, index] := Leds.Text(shade);
      lights[arraynum, index] := Leds.Text(Leds.RgbText(red, green, blue));
      HoldsGrid(lights, s.lights[arraynum := s.lights[arraynum][index := Leds.Text(Leds.RgbText(red, green, blue))]]);
      HoldsGrid(colour, s.colour[arraynum := s.colour[arraynum][index := Leds.Text(shade)]]);
      return Ok(());
    }

    /**
     * The row loop of write, info and save over row `p` of `table`: one line
     * per three slots, starting at slot 1, each slot preceded by `delim`.
     */
    method RenderRows(table: array2<Leds.Text>, p: nat, delim: string) returns (r: Result<seq<string>, Error>)
      requires Valid() && (table == lights || table == colour) && p < Leds.ARRAYS
      ensures r == Leds.Rows(Grid(table)[p], lednums[p], delim)
    {
      var numlines := Quot(lednums[p], 3);
      if Rem(lednums[p], 3) != 0 {
        numlines := numlines + 1;
      }
      assert numlines == Leds.NumLines(lednums[p]);
      var lines: seq<string> := [];
      var counter := 1;
      var outc := 0;
      while outc < numlines
        invariant 0 <= outc <= Leds.RowCount(lednums[p])
        invariant counter == 3 * outc + 1 && 3 * outc < Leds.CAPACITY
        invariant |lines| == outc
        invariant forall k :: 0 <= k < outc ==> 3 * k + 3 < Leds.CAPACITY && lines[k] == Leds.Join(delim, Leds.Cells(Row(table, p), k))
      {
        if counter + 2 >= Leds.CAPACITY {
          return Err(IndexOutOfBounds);
        }
        var line := delim + Leds.Show(table[p, counter]) + delim + Leds.Show(table[p, counter + 1]) + delim + Leds.Show(table[p, counter + 2]);
        Leds.JoinThree(delim, Leds.Show(table[p, counter]), Leds.Show(table[p, counter + 1]), Leds.Show(table[p, counter + 2]));
        assert Leds.Cells(Row(table, p), outc) == [Leds.Show(table[p, counter]), Leds.Show(table[p, counter + 1]), Leds.Show(table[p, counter + 2])];
        lines := lines + [line];
        counter := counter + 3;
        outc := outc + 1;
      }
      assert outc == Leds.RowCount(lednums[p]);
      assert Grid(table)[p] == Row(table, p);
      assert Leds.Rows(Grid(table)[p], lednums[p], delim).Ok?;
      forall k | 0 <= k < outc ensures lines[k] == Leds.Rows(Grid(table)[p], lednums[p], delim).value[k] {
      }
      assert |lines| == |Leds.Rows(Grid(table)[p], lednums[p], delim).value|;
      assert lines == Leds.Rows(Grid(table)[p], lednums[p], delim).value;
      return Ok(lines);
    }

    /** The frame of write and info over `table` for the array named `name`. */
    method Dump(table: array2<Leds.Text>, name: string) returns (r: Result<seq<string>, Error>)
      requires Valid() && (table == lights || table == colour)
      ensures r == Leds.Dump(Model(), Grid(table), name)
    {
      var found := Search(name);
      if found.Err? {
        return Err(found.error);
      }
      if found.value.None? {
        return Ok(["", Leds.RULE]);
      }
      var rows := RenderRows(table, found.value.value, "||");
      if rows.Err? {
        return Err(rows.error);
      }
      return Ok(["", Leds.RULE] + Leds.Framed(rows.value));
    }

    /** What write prints for the array named `name`. */
    method Write(name: string) returns (r: Result<seq<string>, Error>)
      requires Valid()
      ensures r == Leds.WriteLines(Model(), name)
    {
      r := Dump(lights, name);
    }

    /** What info prints for the array named `name`. */
    method Info(name: string) returns (r: Result<seq<string>, Error>)
      requires Valid()
      ensures r == Leds.InfoLines(Model(), name)
    {
      var lines := Dump(colour, name);
      if lines.Err? {
        return Err(lines.error);
      }
      return Ok(lines.value + [""]);
    }

    /** The lines save writes for the array named `name`; array 0 when no array has the name. */
    method Save(name: string) returns (r: Result<seq<string>, Error>)
      requires Valid()
      ensures r == Leds.SaveLines(Model(), name)
    {
      var found := Search(name);
      if found.Err? {
        return Err(found.error);
      }
      var arraynum := if found.value.Some? then found.value.value else 0;
      r := RenderRows(lights, arraynum, "|");
    }
  }
}
