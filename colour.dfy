/**
 * The RGB classifier of the update statement: a first-match chain of
 * threshold guards over the three channels, in the order the source lists
 * them. All comparisons are strict. Two of the guards can never decide the
 * result: the GRAY guard repeats the second SILVER guard, and the GREEN guard
 * is implied by the first MAROON guard.
 */
module Colour {

  datatype Name =
    | White | Black | Red | Lime | Blue | Yellow | Aqua | Magenta
    | Silver | Gray | Maroon | Olive | Green | Navy | Purple | Teal | Unknown

  /** The label stored in the colour table. */
  function Label(n: Name): string
  {
    match n
    case White => "WHITE"
    case Black => "BLACK"
    case Red => "RED"
    case Lime => "LIME"
    case Blue => "BLUE"
    case Yellow => "YELLOW"
    case Aqua => "AQUA"
    case Magenta => "MAGENTA"
    case Silver => "SILVER"
    case Gray => "GRAY"
    case Maroon => "MAROON"
    case Olive => "OLIVE"
    case Green => "GREEN"
    case Navy => "NAVY"
    case Purple => "PURPLE"
    case Teal => "TEAL"
    case Unknown => "UNKNOWN"
  }

  /** Index of the last guard of the chain (guards are numbered from 0); what no guard admits is UNKNOWN. */
  const LAST: nat := 17

  /** Guard `k` of the chain, with the thresholds the source writes. */
  predicate Guard(k: nat, r: int, g: int, b: int)
  {
    match k
    case 0 => r > 180 && g > 180 && b > 180
    case 1 => r < 100 && g < 100 && b < 100
    case 2 => r > 180 && g < 99 && b < 99
    case 3 => r < 100 && g > 180 && b < 100
    case 4 => r < 100 && g < 100 && b > 180
    case 5 => r > 180 && g > 180 && b < 100
    case 6 => r < 100 && g > 180 && b > 180
    case 7 => r > 180 && g < 100 && b > 180
    case 8 => r < 225 && g < 225 && b < 225 && r > 155 && g > 155 && b > 155
    case 9 => r < 190 && g < 190 && b < 190 && r > 100 && g > 100 && b > 100
    case 10 => r < 190 && g < 190 && b < 190 && r > 100 && g > 100 && b > 100
    case 11 => r < 190 && g < 100 && b < 100 && r > 100
    case 12 => r < 190 && g < 190 && b < 99 && r > 100 && g > 100
    case 13 => g < 190 && r < 99 && b < 99 && g > 100
    case 14 => r < 190 && g < 99 && b < 99 && r > 100
    case 15 => b < 190 && g < 99 && r < 99 && b > 100
    case 16 => r < 190 && b < 190 && g < 99 && r > 100 && b > 100
    case 17 => b < 190 && g < 190 && r < 99 && b > 100 && g > 100
    case _ => false
  }

  /** The name guard `k` assigns. */
  function RuleName(k: nat): Name
  {
    match k
    case 0 => White
    case 1 => Black
    case 2 => Red
    case 3 => Lime
    case 4 => Blue
    case 5 => Yellow
    case 6 => Aqua
    case 7 => Magenta
    case 8 => Silver
    case 9 => Silver
    case 10 => Gray
    case 11 => Maroon
    case 12 => Olive
    case 13 => Maroon
    case 14 => Green
    case 15 => Navy
    case 16 => Purple
    case 17 => Teal
    case _ => Unknown
  }

  /** The classifier as the source's chain of `else if`s. */
  function Classify(r: int, g: int, b: int): Name
  {
    if Guard(0, r, g, b) then White
    else if Guard(1, r, g, b) then Black
    else if Guard(2, r, g, b) then Red
    else if Guard(3, r, g, b) then Lime
    else if Guard(4, r, g, b) then Blue
    else if Guard(5, r, g, b) then Yellow
    else if Guard(6, r, g, b) then Aqua
    else if Guard(7, r, g, b) then Magenta
    else if Guard(8, r, g, b) then Silver
    else if Guard(9, r, g, b) then Silver
    else if Guard(10, r, g, b) then Gray
    else if Guard(11, r, g, b) then Maroon
    else if Guard(12, r, g, b) then Olive
    else if Guard(13, r, g, b) then Maroon
    else if Guard(14, r, g, b) then Green
    else if Guard(15, r, g, b) then Navy
    else if Guard(16, r, g, b) then Purple
    else if Guard(17, r, g, b) then Teal
    else Unknown
  }

  /** No guard before `k` holds. */
  predicate NoneBefore(k: nat, r: int, g: int, b: int)
  {
    forall j: nat :: j < k ==> !Guard(j, r, g, b)
  }

  // ---------------------------------------------------------------------
  // Properties

  /** First match: the first guard that holds decides the name. */
  lemma FirstMatchWins(k: nat, r: int, g: int, b: int)
    requires k <= LAST && Guard(k, r, g, b) && NoneBefore(k, r, g, b)
    ensures Classify(r, g, b) == RuleName(k)
  {
    var j: nat := 0;
    while j < k
      invariant j <= k
      invariant forall i: nat :: i < j ==> !Guard(i, r, g, b)
    {
      assert !Guard(j, r, g, b);
      j := j + 1;
    }
  }

  /** UNKNOWN exactly when no guard holds. */
  lemma UnknownIffNoGuard(r: int, g: int, b: int)
    ensures Classify(r, g, b) == Unknown <==> NoneBefore(LAST + 1, r, g, b)
  {
    if Classify(r, g, b) == Unknown {
      forall j: nat | j < LAST + 1 ensures !Guard(j, r, g, b) {
      }
    }
  }

  /** Every result is the name of a guard that holds with no earlier guard holding, or UNKNOWN. */
  lemma ResultHasItsGuard(r: int, g: int, b: int)
    ensures Classify(r, g, b) != Unknown ==>
      exists k: nat :: k <= LAST && Guard(k, r, g, b) && NoneBefore(k, r, g, b) && RuleName(k) == Classify(r, g, b)
  {
    var k: nat := 0;
    while k <= LAST && !Guard(k, r, g, b)
      invariant k <= LAST + 1
      invariant NoneBefore(k, r, g, b)
    {
      k := k + 1;
    }
    if k <= LAST {
      FirstMatchWins(k, r, g, b);
    }
  }

  /** WHITE exactly when every channel exceeds 180. */
  lemma WhiteIff(r: int, g: int, b: int)
    ensures Classify(r, g, b) == White <==> r > 180 && g > 180 && b > 180
  {
  }

  /** BLACK exactly when every channel is below 100. */
  lemma BlackIff(r: int, g: int, b: int)
    ensures Classify(r, g, b) == Black <==> r < 100 && g < 100 && b < 100
  {
  }

  /** The strict comparisons put (180, 180, 180) outside WHITE; it falls to the first SILVER guard. */
  lemma BoundaryIsSilver()
    ensures Classify(180, 180, 180) == Silver
    ensures Classify(200, 200, 200) == White && Classify(10, 10, 10) == Black
    ensures Classify(200, 10, 10) == Red && Classify(10, 200, 10) == Lime
  {
  }

  /** The GRAY guard is the second SILVER guard verbatim, so GRAY is never produced. */
  lemma GrayIsUnreachable(r: int, g: int, b: int)
    ensures Guard(10, r, g, b) <==> Guard(9, r, g, b)
    ensures Classify(r, g, b) != Gray
  {
  }

  /** The GREEN guard implies the earlier first MAROON guard, so GREEN is never produced. */
  lemma GreenIsUnreachable(r: int, g: int, b: int)
    ensures Guard(14, r, g, b) ==> Guard(11, r, g, b)
    ensures Classify(r, g, b) != Green
  {
  }

  /** Every other name, UNKNOWN included, is produced by some triple of channel values in 0..255. */
  lemma OtherNamesReachable(n: Name)
    requires n != Gray && n != Green
    ensures exists r: int, g: int, b: int :: 0 <= r <= 255 && 0 <= g <= 255 && 0 <= b <= 255 && Classify(r, g, b) == n
  {
    match n
    case White => assert Classify(200, 200, 200) == n;
    case Black => assert Classify(0, 0, 0) == n;
    case Red => assert Classify(200, 0, 0) == n;
    case Lime => assert Classify(0, 200, 0) == n;
    case Blue => assert Classify(0, 0, 200) == n;
    case Yellow => assert Classify(200, 200, 0) == n;
    case Aqua => assert Classify(0, 200, 200) == n;
    case Magenta => assert Classify(200, 0, 200) == n;
    case Silver => assert Classify(180, 180, 180) == n;
    case Maroon => assert Classify(150, 0, 0) == n;
    case Olive => assert Classify(150, 150, 0) == n;
    case Navy => assert Classify(0, 0, 150) == n;
    case Purple => assert Classify(150, 0, 150) == n;
    case Teal => assert Classify(0, 150, 150) == n;
    case Unknown => assert Classify(255, 150, 0) == n;
  }

  /** MAROON is produced both for a red-dominant and for a green-dominant triple: two guards carry that name. */
  lemma MaroonHasTwoGuards()
    ensures Classify(150, 0, 0) == Maroon && Classify(0, 150, 0) == Maroon
  {
  }
}
