/** The notifier's graphics: the named colours, the eleven global colour slots,
    the four 8x8 icons built from them, and the per-frame colour evolution that
    showPixel applies after each frame (index.js, "Graphic Setting"). */
module Graphics {

  /** The RGB constants of the program. Only their names matter here: each
      constant is a distinct colour (CYAN and BLUE keep the program's names
      even though their triples are blue and indigo). */
  datatype Color = Black | White | Red | Orange | Yellow | Green | Cyan | Blue | Purple

  /** The values of the global slot variables: A..H form the rainbow ring,
      X, R and O are used by the cross, hsbc and ok icons. `B` is shared by
      the ring and the ok icon. */
  datatype Palette = Palette(
    A: Color, B: Color, C: Color, D: Color, E: Color, F: Color, G: Color, H: Color,
    X: Color, R: Color, O: Color)

  /** The name of one slot variable. */
  datatype Slot = SlotA | SlotB | SlotC | SlotD | SlotE | SlotF | SlotG | SlotH | SlotX | SlotR | SlotO

  /** The slot values the program starts with (O = WHITE, R = RED, X = BLACK,
      A..H = RED, ORANGE, YELLOW, GREEN, CYAN, BLUE, PURPLE, WHITE). */
  const Initial: Palette :=
    Palette(Red, Orange, Yellow, Green, Cyan, Blue, Purple, White, Black, Red, White)

  /** The icon slots start as black, red and white, and the eight ring
      colours are pairwise distinct. */
  lemma InitialPalette()
    ensures Initial.X == Black && Initial.R == Red && Initial.O == White
    ensures forall i, j :: 0 <= i < j < 8 ==> Ring(Initial)[i] != Ring(Initial)[j]
  {
  }

  function Get(p: Palette, s: Slot): Color
  {
    match s
    case SlotA => p.A
    case SlotB => p.B
    case SlotC => p.C
    case SlotD => p.D
    case SlotE => p.E
    case SlotF => p.F
    case SlotG => p.G
    case SlotH => p.H
    case SlotX => p.X
    case SlotR => p.R
    case SlotO => p.O
  }

  /** The rainbow ring A..H in order. */
  function Ring(p: Palette): (ring: seq<Color>)
    ensures |ring| == 8
  {
    [p.A, p.B, p.C, p.D, p.E, p.F, p.G, p.H]
  }

  /** A palette is determined by its ring and its three other slots. */
  lemma RingDetermines(p: Palette, q: Palette)
    requires Ring(p) == Ring(q)
    requires p.X == q.X && p.R == q.R && p.O == q.O
    ensures p == q
  {
    assert Ring(p)[2] == Ring(q)[2] && Ring(p)[3] == Ring(q)[3];
    assert Ring(p)[4] == Ring(q)[4] && Ring(p)[5] == Ring(q)[5] && Ring(p)[6] == Ring(q)[6];
  }

  /** The names getIcon accepts. */
  datatype Icon = Rainbow | Cross | Hsbc | Ok

  /** Rows of eight cells laid out one after another, as the display takes them. */
  function Flatten(rows: seq<seq<Color>>): (cells: seq<Color>)
    requires forall k :: 0 <= k < |rows| ==> |rows[k]| == 8
    ensures |cells| == 8 * |rows|
    ensures forall i :: 0 <= i < |cells| ==> cells[i] == rows[i / 8][i % 8]
  {
    if rows == [] then [] else rows[0] + Flatten(rows[1..])
  }

  /** The rainbow pixel table: the ring A..H in every row. */
  function RainbowRows(p: Palette): (rows: seq<seq<Color>>)
    ensures |rows| == 8 && forall k :: 0 <= k < 8 ==> rows[k] == Ring(p)
  {
    var A, B, C, D, E, F, G, H := p.A, p.B, p.C, p.D, p.E, p.F, p.G, p.H;
    [ [A, B, C, D, E, F, G, H],
      [A, B, C, D, E, F, G, H],
      [A, B, C, D, E, F, G, H],
      [A, B, C, D, E, F, G, H],
      [A, B, C, D, E, F, G, H],
      [A, B, C, D, E, F, G, H],
      [A, B, C, D, E, F, G, H],
      [A, B, C, D, E, F, G, H] ]
  }

  /** The cross pixel table: the ring minus D and E, crossed by X bars with a C centre. */
  function CrossRows(p: Palette): (rows: seq<seq<Color>>)
    ensures |rows| == 8 && forall k :: 0 <= k < 8 ==> |rows[k]| == 8
    ensures forall k, j :: 0 <= k < 8 && 0 <= j < 8 ==> rows[k][j] in {p.A, p.B, p.C, p.F, p.G, p.H, p.X}
  {
    var A, B, C, F, G, H, X := p.A, p.B, p.C, p.F, p.G, p.H, p.X;
    var arm, bar := [A, B, C, X, X, F, G, H], [X, X, X, C, C, X, X, X];
    [arm, arm, arm, bar, bar, arm, arm, arm]
  }

  /** The hsbc pixel table: a hexagon in R and O on X. */
  function HsbcRows(p: Palette): (rows: seq<seq<Color>>)
    ensures |rows| == 8 && forall k :: 0 <= k < 8 ==> |rows[k]| == 8
    ensures forall k, j :: 0 <= k < 8 && 0 <= j < 8 ==> rows[k][j] in {p.X, p.R, p.O}
    ensures forall k, j :: 0 <= k < 8 && 0 <= j < 8 ==> rows[k][j] == rows[k][7 - j]
  {
    var X, R, O := p.X, p.R, p.O;
    [ [X, X, X, X, X, X, X, X],
      [X, X, R, R, R, R, X, X],
      [X, R, O, R, R, O, R, X],
      [R, R, O, O, O, O, R, R],
      [X, R, O, R, R, O, R, X],
      [X, X, R, R, R, R, X, X],
      [X, X, X, X, X, X, X, X],
      [X, X, X, X, X, X, X, X] ]
  }

  /** The ok pixel table: an O in R on the left half, a K in B on the right. */
  function OkRows(p: Palette): (rows: seq<seq<Color>>)
    ensures |rows| == 8 && forall k :: 0 <= k < 8 ==> |rows[k]| == 8
    ensures forall k, j :: 0 <= k < 8 && 0 <= j < 8 ==> rows[k][j] in (if j < 4 then {p.X, p.R} else {p.X, p.B})
  {
    var X, R, B := p.X, p.R, p.B;
    [ [X, R, R, X, B, X, X, B],
      [R, X, X, R, B, X, B, X],
      [R, X, X, R, B, B, B, X],
      [R, X, X, R, B, B, X, X],
      [R, X, X, R, B, B, X, X],
      [R, X, X, R, B, B, B, X],
      [R, X, X, R, B, X, B, X],
      [X, R, R, X, B, X, X, B] ]
  }

  /** The pixel table of the named icon (the map that getIcon fills with addIcon). */
  function Rows(icon: Icon, p: Palette): (rows: seq<seq<Color>>)
    ensures |rows| == 8 && forall k :: 0 <= k < 8 ==> |rows[k]| == 8
  {
    match icon
    case Rainbow => RainbowRows(p)
    case Cross => CrossRows(p)
    case Hsbc => HsbcRows(p)
    case Ok => OkRows(p)
  }

  /** The 64 cells (row by row) getIcon returns for the named icon, drawn
      with the slot values of `p` at the moment of the call. */
  function GetIcon(icon: Icon, p: Palette): (cells: seq<Color>)
    ensures |cells| == 64
  {
    Flatten(Rows(icon, p))
  }

  /** The rainbow shows the ring A..H in every row: column c is slot c. */
  lemma RainbowIconColumns(p: Palette)
    ensures forall i :: 0 <= i < 64 ==> GetIcon(Rainbow, p)[i] == Ring(p)[i % 8]
  {
    var rows := RainbowRows(p);
    forall i | 0 <= i < 64
      ensures GetIcon(Rainbow, p)[i] == Ring(p)[i % 8]
    {
      assert GetIcon(Rainbow, p)[i] == rows[i / 8][i % 8];
    }
  }

  /** The cross is drawn from the ring minus D and E, and X. */
  lemma CrossIconSlots(p: Palette)
    ensures forall i :: 0 <= i < 64 ==> GetIcon(Cross, p)[i] in {p.A, p.B, p.C, p.F, p.G, p.H, p.X}
  {
    var rows := CrossRows(p);
    forall i | 0 <= i < 64
      ensures GetIcon(Cross, p)[i] in {p.A, p.B, p.C, p.F, p.G, p.H, p.X}
    {
      assert GetIcon(Cross, p)[i] == rows[i / 8][i % 8];
    }
  }

  /** The hsbc hexagon is drawn from X, R and O only. */
  lemma HsbcIconSlots(p: Palette)
    ensures forall i :: 0 <= i < 64 ==> GetIcon(Hsbc, p)[i] in {p.X, p.R, p.O}
  {
    var rows := HsbcRows(p);
    forall i | 0 <= i < 64
      ensures GetIcon(Hsbc, p)[i] in {p.X, p.R, p.O}
    {
      assert GetIcon(Hsbc, p)[i] == rows[i / 8][i % 8];
    }
  }

  /** "OK": every cell is X, R or B; the O (left half) uses R, the K (right half) B. */
  lemma OkIconSlots(p: Palette)
    ensures forall i :: 0 <= i < 64 ==> GetIcon(Ok, p)[i] in {p.X, p.R, p.B}
    ensures forall i :: 0 <= i < 64 ==> GetIcon(Ok, p)[i] in (if i % 8 < 4 then {p.X, p.R} else {p.X, p.B})
  {
    var rows := OkRows(p);
    forall i | 0 <= i < 64
      ensures GetIcon(Ok, p)[i] in (if i % 8 < 4 then {p.X, p.R} else {p.X, p.B})
    {
      assert GetIcon(Ok, p)[i] == rows[i / 8][i % 8];
    }
  }

  /** The slots an icon's cells are taken from. */
  function UsedSlots(icon: Icon): set<Slot>
  {
    match icon
    case Rainbow => {SlotA, SlotB, SlotC, SlotD, SlotE, SlotF, SlotG, SlotH}
    case Cross => {SlotA, SlotB, SlotC, SlotF, SlotG, SlotH, SlotX}
    case Hsbc => {SlotX, SlotR, SlotO}
    case Ok => {SlotX, SlotR, SlotB}
  }

  /** An icon reads only its own slots: two palettes that agree on them draw
      the same frame. */
  lemma IconReadsOnlyUsedSlots(icon: Icon, p: Palette, q: Palette)
    requires forall s :: s in UsedSlots(icon) ==> Get(p, s) == Get(q, s)
    ensures GetIcon(icon, p) == GetIcon(icon, q)
  {
    match icon
    case Rainbow =>
      assert Get(p, SlotA) == Get(q, SlotA) && Get(p, SlotB) == Get(q, SlotB);
      assert Get(p, SlotC) == Get(q, SlotC) && Get(p, SlotD) == Get(q, SlotD);
      assert Get(p, SlotE) == Get(q, SlotE) && Get(p, SlotF) == Get(q, SlotF);
      assert Get(p, SlotG) == Get(q, SlotG) && Get(p, SlotH) == Get(q, SlotH);
      assert RainbowRows(p) == RainbowRows(q);
    case Cross =>
      assert Get(p, SlotA) == Get(q, SlotA) && Get(p, SlotB) == Get(q, SlotB);
      assert Get(p, SlotC) == Get(q, SlotC) && Get(p, SlotX) == Get(q, SlotX);
      assert Get(p, SlotF) == Get(q, SlotF) && Get(p, SlotG) == Get(q, SlotG);
      assert Get(p, SlotH) == Get(q, SlotH);
      assert CrossRows(p) == CrossRows(q);
    case Hsbc =>
      assert Get(p, SlotX) == Get(q, SlotX) && Get(p, SlotR) == Get(q, SlotR);
      assert Get(p, SlotO) == Get(q, SlotO);
      assert HsbcRows(p) == HsbcRows(q);
    case Ok =>
      assert Get(p, SlotX) == Get(q, SlotX) && Get(p, SlotR) == Get(q, SlotR);
      assert Get(p, SlotB) == Get(q, SlotB);
      assert OkRows(p) == OkRows(q);
  }

  /** The blink rule shared by the cross, hsbc and ok icons: black on an even
      frame counter, the lit colour on an odd one. */
  function Blink(count: nat, lit: Color): (c: Color)
    ensures c == Black <==> count % 2 == 0 || lit == Black
    ensures count % 2 == 1 ==> c == lit
  {
    if count % 2 == 0 then Black else lit
  }

  /** The slots shiftColor assigns for each icon. */
  function Touched(icon: Icon): set<Slot>
  {
    match icon
    case Rainbow => {SlotA, SlotB, SlotC, SlotD, SlotE, SlotF, SlotG, SlotH}
    case Cross => {SlotX}
    case Hsbc => {SlotO, SlotR}
    case Ok => {SlotR, SlotB}
  }

  /** One step of the rainbow: A <- B <- ... <- H <- old A. */
  function Rotate(p: Palette): (q: Palette)
    ensures q.X == p.X && q.R == p.R && q.O == p.O
  {
    p.(A := p.B, B := p.C, C := p.D, D := p.E, E := p.F, F := p.G, G := p.H, H := p.A)
  }

  /** The palette after shiftColor for `icon`, `count` being the frame
      counter after its increment. */
  function Shift(icon: Icon, p: Palette, count: nat): Palette
  {
    match icon
    case Cross => p.(X := Blink(count, White))
    case Hsbc => p.(O := Blink(count, White), R := Blink(count, Red))
    case Ok => p.(R := Blink(count, Red), B := Blink(count, Green))
    case Rainbow => Rotate(p)
  }

  /** What shiftColor does to each slot: nothing outside the icon's own slots
      changes, the rainbow turns the ring by one, and the other icons blink
      their slots with the parity of the counter. */
  lemma ShiftEffect(icon: Icon, p: Palette, count: nat)
    ensures forall s :: s !in Touched(icon) ==> Get(Shift(icon, p, count), s) == Get(p, s)
    ensures icon == Rainbow ==> forall i :: 0 <= i < 8 ==> Ring(Shift(icon, p, count))[i] == Ring(p)[(i + 1) % 8]
    ensures icon == Cross ==> Shift(icon, p, count).X == (if count % 2 == 0 then Black else White)
    ensures icon == Hsbc ==>
      Shift(icon, p, count).O == (if count % 2 == 0 then Black else White) &&
      Shift(icon, p, count).R == (if count % 2 == 0 then Black else Red)
    ensures icon == Ok ==>
      Shift(icon, p, count).R == (if count % 2 == 0 then Black else Red) &&
      Shift(icon, p, count).B == (if count % 2 == 0 then Black else Green)
  {
    if icon == Rainbow {
      forall i | 0 <= i < 8
        ensures Ring(Rotate(p))[i] == Ring(p)[(i + 1) % 8]
      {
        RotateAt(p, i);
      }
    }
  }

  /** The rainbow shift moves every ring slot one place towards A and the
      old A to H. */
  lemma RotateRing(p: Palette)
    ensures Ring(Rotate(p)) == Ring(p)[1..] + [Ring(p)[0]]
  {
  }

  /** The rainbow shift permutes the ring's colours. */
  lemma RotatePermutes(p: Palette)
    ensures multiset(Ring(Rotate(p))) == multiset(Ring(p))
  {
    var s, t := Ring(p), Ring(Rotate(p));
    var head, tail := [s[0]], s[1..];
    RotateRing(p);
    assert t == tail + head;
    assert s == head + tail;
    calc {
      multiset(t);
      multiset(tail) + multiset(head);
      multiset(head) + multiset(tail);
      multiset(s);
    }
  }

  /** `n` rainbow shifts in a row. */
  function RotateN(p: Palette, n: nat): (q: Palette)
    ensures q.X == p.X && q.R == p.R && q.O == p.O
  {
    if n == 0 then p else Rotate(RotateN(p, n - 1))
  }

  /** One shift moves ring position (i + 1) mod 8 to position i. */
  lemma RotateAt(p: Palette, i: nat)
    requires i < 8
    ensures Ring(Rotate(p))[i] == Ring(p)[(i + 1) % 8]
  {
    if i == 7 {
      assert (i + 1) % 8 == 0;
    } else {
      assert (i + 1) % 8 == i + 1;
    }
  }

  /** Index arithmetic for one more turn of the ring. */
  lemma TurnStep(i: nat, n: nat)
    requires i < 8 && n >= 1
    ensures ((i + 1) % 8 + (n - 1)) % 8 == (i + n) % 8
  {
    if i == 7 {
      assert (i + 1) % 8 == 0;
      assert i + n == (n - 1) + 8;
    } else {
      assert (i + 1) % 8 == i + 1;
    }
  }

  /** After `n` shifts, ring position i holds what position (i + n) mod 8 held. */
  lemma {:induction false} RotateNAt(p: Palette, n: nat, i: nat)
    requires i < 8
    ensures Ring(RotateN(p, n))[i] == Ring(p)[(i + n) % 8]
  {
    if n > 0 {
      var q := RotateN(p, n - 1);
      var j := (i + 1) % 8;
      assert RotateN(p, n) == Rotate(q);
      RotateAt(q, i);
      RotateNAt(p, n - 1, j);
      TurnStep(i, n);
      assert Ring(q)[j] == Ring(p)[(i + n) % 8];
    }
  }

  /** Shifting m times and then n times is shifting m + n times. */
  lemma {:induction false} RotateNAdd(p: Palette, m: nat, n: nat)
    ensures RotateN(p, m + n) == RotateN(RotateN(p, m), n)
  {
    if n > 0 {
      RotateNAdd(p, m, n - 1);
    }
  }

  /** Eight rainbow shifts restore every palette. */
  lemma RotateEightRestores(p: Palette)
    ensures RotateN(p, 8) == p
  {
    forall i | 0 <= i < 8
      ensures Ring(RotateN(p, 8))[i] == Ring(p)[i]
    {
      RotateNAt(p, 8, i);
    }
    RingDetermines(RotateN(p, 8), p);
  }

  /** Only the number of shifts modulo 8 matters. */
  lemma {:induction false} RotateNMod(p: Palette, n: nat)
    ensures RotateN(p, n) == RotateN(p, n % 8)
  {
    if n >= 8 {
      RotateNAdd(p, n - 8, 8);
      RotateEightRestores(RotateN(p, n - 8));
      RotateNMod(p, n - 8);
      assert (n - 8) % 8 == n % 8;
    }
  }

  /** The program's initial ring has eight distinct colours, so no fewer than
      eight shifts bring it back. */
  lemma InitialRingHasOrderEight(n: nat)
    requires 0 < n < 8
    ensures RotateN(Initial, n) != Initial
  {
    RotateNAt(Initial, n, 0);
    assert Ring(RotateN(Initial, n))[0] == Ring(Initial)[n];
  }

  /** The ok blink overwrites R and B outright, so what they held before does
      not matter: two ok shifts in a row equal the second alone. */
  lemma OkShiftForgets(p: Palette, j: nat, k: nat)
    ensures Shift(Ok, Shift(Ok, p, j), k) == Shift(Ok, p, k)
  {
  }
}
