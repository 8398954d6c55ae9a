/** The constant registry of dither styles: five categories, each a table from a style
    name to the constant data of its algorithm, searched by name. */
module Registry {

  import opened Wrappers

  /** One error-diffusion tap: the quantisation error times weight/divisor goes to the
      cell dx columns right and dy rows down. */
  datatype Tap = Tap(dx: int, dy: int, weight: int)

  datatype Kernel = Kernel(divisor: int, taps: seq<Tap>)

  datatype Axis = AxisX | AxisY | Radial
  datatype Wave = Sine | Square

  /** The constant carried by a registry entry. */
  datatype Algo =
    | Filter(kernel: Kernel)
    | Variable
    | Bayer(size: int)
    | Knoll
    | HLines | VLines | DLines
    | BlueNoise | WhiteNoise | Voronoi | Stipple
    | Waveform(axis: Axis, wave: Wave)
    | Serpentine
    | Checker | GridLines | RandomDots | Gradient

  datatype Category = ErrorDiffusion | Ordered | Organic | Modulation | Pattern

  datatype Entry = Entry(category: Category, algo: Algo)

  const FloydSteinberg := Kernel(16, [Tap(1, 0, 7), Tap(-1, 1, 3), Tap(0, 1, 5), Tap(1, 1, 1)])
  const Atkinson := Kernel(8, [Tap(1, 0, 1), Tap(2, 0, 1), Tap(-1, 1, 1), Tap(0, 1, 1), Tap(1, 1, 1), Tap(0, 2, 1)])
  const JarvisJudiceNinke := Kernel(48, [
    Tap(1, 0, 7), Tap(2, 0, 5),
    Tap(-2, 1, 3), Tap(-1, 1, 5), Tap(0, 1, 7), Tap(1, 1, 5), Tap(2, 1, 3),
    Tap(-2, 2, 1), Tap(-1, 2, 3), Tap(0, 2, 5), Tap(1, 2, 3), Tap(2, 2, 1)])
  const Stucki := Kernel(42, [
    Tap(1, 0, 8), Tap(2, 0, 4),
    Tap(-2, 1, 2), Tap(-1, 1, 4), Tap(0, 1, 8), Tap(1, 1, 4), Tap(2, 1, 2),
    Tap(-2, 2, 1), Tap(-1, 2, 2), Tap(0, 2, 4), Tap(1, 2, 2), Tap(2, 2, 1)])
  const Burkes := Kernel(32, [
    Tap(1, 0, 8), Tap(2, 0, 4),
    Tap(-2, 1, 2), Tap(-1, 1, 4), Tap(0, 1, 8), Tap(1, 1, 4), Tap(2, 1, 2)])
  const Sierra := Kernel(32, [
    Tap(1, 0, 5), Tap(2, 0, 3),
    Tap(-2, 1, 2), Tap(-1, 1, 4), Tap(0, 1, 5), Tap(1, 1, 4), Tap(2, 1, 2),
    Tap(-1, 2, 2), Tap(0, 2, 3), Tap(1, 2, 2)])
  const TwoRowSierra := Kernel(16, [
    Tap(1, 0, 4), Tap(2, 0, 3),
    Tap(-2, 1, 1), Tap(-1, 1, 2), Tap(0, 1, 3), Tap(1, 1, 2), Tap(2, 1, 1)])
  const SierraLite := Kernel(4, [Tap(1, 0, 2), Tap(-1, 1, 1), Tap(0, 1, 1)])

  /** The five category tables, in the order the dispatcher searches them. */
  const Categories: seq<(Category, seq<(string, Algo)>)> := [
    (ErrorDiffusion, [
      ("Floyd-Steinberg", Filter(FloydSteinberg)),
      ("Atkinson", Filter(Atkinson)),
      ("Jarvis-Judice-Ninke", Filter(JarvisJudiceNinke)),
      ("Stucki", Filter(Stucki)),
      ("Burkes", Filter(Burkes)),
      ("Sierra", Filter(Sierra)),
      ("Two-Row Sierra", Filter(TwoRowSierra)),
      ("Sierra Lite", Filter(SierraLite)),
      ("Ostromoukhov", Variable)]),
    (Ordered, [
      ("Ordered 2x2", Bayer(2)),
      ("Ordered 4x4", Bayer(4)),
      ("Ordered 8x8", Bayer(8)),
      ("Ordered 16x16", Bayer(16)),
      ("Knoll (Clustered)", Knoll),
      ("Horizontal Lines", HLines),
      ("Vertical Lines", VLines),
      ("Diagonal Lines", DLines)]),
    (Organic, [
      ("Blue Noise", BlueNoise),
      ("White Noise", WhiteNoise),
      ("Voronoi Stippling", Voronoi),
      ("Stipple Pattern", Stipple)]),
    (Modulation, [
      ("Sine Wave X", Waveform(AxisX, Sine)),
      ("Sine Wave Y", Waveform(AxisY, Sine)),
      ("Circular Wave", Waveform(Radial, Sine)),
      ("Square Wave", Waveform(AxisX, Square)),
      ("Riemersma (Hilbert)", Serpentine)]),
    (Pattern, [
      ("Checkerboard", Checker),
      ("Grid Pattern", GridLines),
      ("Random Dots", RandomDots),
      ("Interleaved Gradient", Gradient)])
  ]

  /** The error-diffusion kernels of the first table, Ostromoukhov excluded. */
  const Kernels: seq<Kernel> :=
    [FloydSteinberg, Atkinson, JarvisJudiceNinke, Stucki, Burkes, Sierra, TwoRowSierra, SierraLite]

  /** A tap points strictly forward in raster order: to a later row, or later in the same row. */
  predicate Forward(t: Tap) {
    t.dy > 0 || (t.dy == 0 && t.dx > 0)
  }

  predicate AllForward(taps: seq<Tap>) {
    forall i :: 0 <= i < |taps| ==> Forward(taps[i])
  }

  /** Sum of the weights of taps[i..]. */
  function WeightSumFrom(taps: seq<Tap>, i: nat): int
    decreases |taps| - i
  {
    if i >= |taps| then 0 else taps[i].weight + WeightSumFrom(taps, i + 1)
  }

  function WeightSum(taps: seq<Tap>): int {
    WeightSumFrom(taps, 0)
  }

  /** A diffusion kernel the diffusers can run: positive divisor, non-negative weights,
      every tap forward. */
  predicate WellFormed(k: Kernel) {
    k.divisor > 0 && AllForward(k.taps) && forall i :: 0 <= i < |k.taps| ==> k.taps[i].weight >= 0
  }

  /** Looking a name up in table[i..]: the algorithm of the first key equal to it, if any. */
  function FindFrom(table: seq<(string, Algo)>, name: string, i: nat): (r: Option<Algo>)
    decreases |table| - i
    ensures r.Some? <==> exists j :: i <= j < |table| && table[j].0 == name
    ensures r.Some? ==> exists j :: i <= j < |table| && table[j] == (name, r.value)
  {
    if i >= |table| then None
    else if table[i].0 == name then Some(table[i].1)
    else FindFrom(table, name, i + 1)
  }

  /** The dispatcher's search: categories in order, the first table holding the name wins. */
  function LookupFrom(cats: seq<(Category, seq<(string, Algo)>)>, name: string, c: nat): (r: Option<Entry>)
    decreases |cats| - c
    ensures r.Some? <==> exists k, i :: c <= k < |cats| && 0 <= i < |cats[k].1| && cats[k].1[i].0 == name
    ensures r.Some? ==> exists k, i :: c <= k < |cats| && 0 <= i < |cats[k].1|
                          && cats[k].0 == r.value.category && cats[k].1[i] == (name, r.value.algo)
  {
    if c >= |cats| then None
    else
      match FindFrom(cats[c].1, name, 0)
      case Some(a) => Some(Entry(cats[c].0, a))
      case None => LookupFrom(cats, name, c + 1)
  }

  function Lookup(name: string): Option<Entry> {
    LookupFrom(Categories, name, 0)
  }
  /** Every kernel of the registry is well formed; in particular every tap points forward. */
  lemma KernelsWellFormed()
    ensures forall i :: 0 <= i < |Kernels| ==> WellFormed(Kernels[i])
  {
  }

  /** Each kernel's weights sum to its divisor, except Atkinson's six unit weights, which
      pass on only 6/8 of the error. */
  lemma KernelWeightSums()
    ensures forall i :: 0 <= i < |Kernels| && Kernels[i] != Atkinson ==> WeightSum(Kernels[i].taps) == Kernels[i].divisor
    ensures WeightSum(Atkinson.taps) == 6 && Atkinson.divisor == 8
  {
  }

  /** Every name that resolves to a fixed diffusion kernel resolves in the error-diffusion
      category, to one of the eight registry kernels. */
  lemma DiffusionEntries(name: string, e: Entry)
    requires Lookup(name) == Some(e) && e.algo.Filter?
    ensures e.category == ErrorDiffusion && e.algo.kernel in Kernels
  {
  }

  /** What each category's branch of the dispatcher expects of its entries: a runnable
      kernel or the variable diffuser under error diffusion, a waveform or the serpentine
      scan under modulation. */
  predicate Consistent(e: Entry) {
    && (e.category == ErrorDiffusion ==> e.algo.Variable? || (e.algo.Filter? && WellFormed(e.algo.kernel)))
    && (e.category == Modulation ==> e.algo.Serpentine? || e.algo.Waveform?)
  }

  /** Every entry of every table is one its category's branch can run. */
  lemma TablesConsistent()
    ensures forall k, i :: 0 <= k < |Categories| && 0 <= i < |Categories[k].1| ==>
      Consistent(Entry(Categories[k].0, Categories[k].1[i].1))
  {
    KernelsWellFormed();
    forall k, i | 0 <= k < |Categories| && 0 <= i < |Categories[k].1|
      ensures Consistent(Entry(Categories[k].0, Categories[k].1[i].1))
    {
      if k == 0 {
        assert i < 8 ==> Categories[0].1[i].1 == Filter(Kernels[i]);
      }
    }
  }

  /** Every name the registry knows resolves to an entry its category's branch can run. */
  lemma LookupConsistent(name: string)
    ensures Lookup(name).Some? ==> Consistent(Lookup(name).value)
  {
    TablesConsistent();
  }

  lemma KnownNames()
    ensures Lookup("Floyd-Steinberg") == Some(Entry(ErrorDiffusion, Filter(FloydSteinberg)))
    ensures Lookup("Nonexistent") == None
  {
  }
}
