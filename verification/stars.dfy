/** The star helpers of the system generator: the descriptive attribute of
    a star, its orbit around the system centre, and the `star_image` row
    picked for a spectral class. */
module Stars {
  import opened Common
  import opened SkyData
  import opened Rng

  // ---------------------------------------------------------------- attributes

  /** The classes whose giants are called plain giants; an A-class giant,
      like any giant of a class outside this list, is a supergiant. */
  const GiantLetters: seq<string> := ["O", "B", "F", "G", "K", "M"]

  /** Every description the generator can give a star. */
  const Descriptions: seq<string> :=
    ["giant star", "supergiant star", "dwarf star", "small star", "sun-like star", "bright star", "dull star", "star"]

  /** `get_star_attributes`: giants by class, dwarfs by a coin among two
      words, every other type by class. */
  function StarAttributes(src: Source, g: Cursor, cls: string, kind: string): (d: Draw<string>)
    ensures d.value in Descriptions
    ensures kind == "dwarf" <==> d.next != g
    ensures kind == "dwarf" ==> d.value in ["dwarf star", "small star"] && Step(g, d.next)
    ensures kind == "giant" ==> (d.value == "giant star" <==> cls in GiantLetters)
    ensures kind == "giant" ==> (d.value == "supergiant star" <==> cls !in GiantLetters)
    ensures kind != "giant" && kind != "dwarf" ==>
              && (d.value == "sun-like star" <==> cls == "G")
              && (d.value == "bright star" <==> cls in ["O", "B"])
              && (d.value == "dull star" <==> cls in ["K", "M"])
              && (d.value == "star" <==> cls !in ["G", "O", "B", "K", "M"])
  {
    if kind == "giant" then
      Draw(if cls in GiantLetters then "giant star" else "supergiant star", g)
    else if kind == "dwarf" then
      Choice(src, g, ["dwarf star", "small star"])
    else if cls == "G" then Draw("sun-like star", g)
    else if cls in ["O", "B"] then Draw("bright star", g)
    else if cls in ["K", "M"] then Draw("dull star", g)
    else Draw("star", g)
  }

  // ---------------------------------------------------------------- orbits

  /** A star's orbit: distance, period and angular offset. */
  datatype Orbit = Orbit(distance: real, period: real, offset: real)

  /** `get_star_params`: distance and period from the type's ranges, then
      an offset in [0, 360]; three draws whatever the type. */
  function StarParams(src: Source, g: Cursor, kind: string): (d: Draw<Orbit>)
    ensures kind == "giant" ==> 10.0 <= d.value.distance <= 100.0 && 200.0 <= d.value.period <= 1000.0
    ensures kind == "dwarf" ==> 0.0 <= d.value.distance <= 20.0 && 30.0 <= d.value.period <= 200.0
    ensures kind != "giant" && kind != "dwarf" ==> 0.0 <= d.value.distance <= 50.0 && 50.0 <= d.value.period <= 500.0
    ensures 0.0 <= d.value.offset <= 360.0
    ensures d.next == Cursor(g.pos + 3, g.npPos)
  {
    var dlo, dhi, plo, phi :=
      if kind == "giant" then 10.0 else 0.0,
      if kind == "giant" then 100.0 else if kind == "dwarf" then 20.0 else 50.0,
      if kind == "giant" then 200.0 else if kind == "dwarf" then 30.0 else 50.0,
      if kind == "giant" then 1000.0 else if kind == "dwarf" then 200.0 else 500.0;
    var distance := Uniform(src, g, dlo, dhi);
    var period := Uniform(src, distance.next, plo, phi);
    var offset := Uniform(src, period.next, 0.0, 360.0);
    Draw(Orbit(distance.value, period.value, offset.value), offset.next)
  }

  // ---------------------------------------------------------------- star rows

  /** The rows of a class, in table order. */
  function Matching(table: seq<StarRow>, cls: string): (r: seq<StarRow>)
    ensures forall i :: 0 <= i < |r| ==> r[i] in table && r[i].cls == cls
  {
    if |table| == 0 then []
    else
      var rest := Matching(table[1..], cls);
      if table[0].cls == cls then [table[0]] + rest else rest
  }

  /** `Matching` misses no row of the class. */
  lemma {:induction false} MatchingComplete(table: seq<StarRow>, cls: string, row: StarRow)
    requires row in table && row.cls == cls
    ensures row in Matching(table, cls)
  {
    if table[0] != row {
      MatchingComplete(table[1..], cls, row);
    }
  }

  /** Some row has the class. */
  predicate HasClass(table: seq<StarRow>, cls: string) {
    exists row :: row in table && row.cls == cls
  }

  /** `get_star_data`: a random row of the class, or, when the class has
      none, the first row without a draw. */
  function StarData(src: Source, g: Cursor, table: seq<StarRow>, cls: string): (d: Draw<StarRow>)
    requires |table| > 0
    ensures d.value in table
    ensures HasClass(table, cls) ==> d.value.cls == cls && Step(g, d.next)
    ensures !HasClass(table, cls) ==> d.value == table[0] && d.next == g
  {
    var rows := Matching(table, cls);
    if |rows| > 0 then Choice(src, g, rows)
    else
      assert !HasClass(table, cls) by {
        if HasClass(table, cls) {
          var row :| row in table && row.cls == cls;
          MatchingComplete(table, cls, row);
        }
      }
      Draw(table[0], g)
  }

  /** Base habitability is a function of the class in the table. */
  predicate ClassConstant(table: seq<StarRow>) {
    forall i, j :: 0 <= i < |table| && 0 <= j < |table| && table[i].cls == table[j].cls ==>
      table[i].habitability == table[j].habitability
  }

  /** When base habitability is a function of the class, the primary
      star's base habitability depends on the requested class only, never
      on the draw. */
  lemma StarDataHabitability(src: Source, g: Cursor, src': Source, g': Cursor, table: seq<StarRow>, cls: string)
    requires |table| > 0 && ClassConstant(table)
    ensures StarData(src, g, table, cls).value.habitability == StarData(src', g', table, cls).value.habitability
  {
    var a, b := StarData(src, g, table, cls).value, StarData(src', g', table, cls).value;
    var i :| 0 <= i < |table| && table[i] == a;
    var j :| 0 <= j < |table| && table[j] == b;
  }

  /** The generator's star table has that property. */
  lemma StarImageClassConstant()
    ensures |StarImage()| > 0 && ClassConstant(StarImage())
  {
    StarHabitabilityByClass();
  }
}
