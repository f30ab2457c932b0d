/** The palette selector: twelve hand-picked palettes of five colours each;
    choose_palette picks one, shuffles it in place and parses its colours. */
module Palette {
  import opened Utilities
  import opened Shuffle

  const Palettes: seq<seq<string>> := [
    ["#0f0f1a", "#1b1f3b", "#533a71", "#a88fac", "#ffd6e0"],
    ["#0b1d26", "#1b263b", "#415a77", "#778da9", "#e0e1dd"],
    ["#0a0908", "#22333b", "#eae0d5", "#c6ac8f", "#5e503f"],
    ["#0f2027", "#203a43", "#2c5364", "#f5f7fa", "#c3cfe2"],
    ["#1e152a", "#23395b", "#406e8e", "#8ea8c3", "#cbf7ed"],
    ["#1b1b3a", "#693668", "#a74482", "#f84aa7", "#ff3562"],
    ["#051923", "#003554", "#006494", "#0582ca", "#00a6fb"],
    ["#2f1b41", "#87255b", "#a8dadc", "#f1faee", "#457b9d"],
    ["#141414", "#292929", "#fca311", "#e5e5e5", "#14213d"],
    ["#0f0f0f", "#2d6a4f", "#40916c", "#95d5b2", "#d8f3dc"],
    ["#1b262c", "#0f4c75", "#3282b8", "#bbe1fa", "#f7f7ff"],
    ["#1d1e22", "#2c2e33", "#3f4147", "#ffd166", "#ef476f"]
  ]

  /** Five "#rrggbb" colours. */
  predicate IsWellFormedPalette(p: seq<string>) {
    |p| == 5 && IsHexColour(p[0]) && IsHexColour(p[1]) && IsHexColour(p[2]) &&
    IsHexColour(p[3]) && IsHexColour(p[4])
  }

  lemma CatalogPart0()
    ensures forall p :: 0 <= p < 3 ==> IsWellFormedPalette(Palettes[p])
  {
    assert IsWellFormedPalette(Palettes[0]);
    assert IsWellFormedPalette(Palettes[1]);
    assert IsWellFormedPalette(Palettes[2]);
  }

  lemma CatalogPart1()
    ensures forall p :: 3 <= p < 6 ==> IsWellFormedPalette(Palettes[p])
  {
    assert IsWellFormedPalette(Palettes[3]);
    assert IsWellFormedPalette(Palettes[4]);
    assert IsWellFormedPalette(Palettes[5]);
  }

  lemma CatalogPart2()
    ensures forall p :: 6 <= p < 9 ==> IsWellFormedPalette(Palettes[p])
  {
    assert IsWellFormedPalette(Palettes[6]);
    assert IsWellFormedPalette(Palettes[7]);
    assert IsWellFormedPalette(Palettes[8]);
  }

  lemma CatalogPart3()
    ensures forall p :: 9 <= p < 12 ==> IsWellFormedPalette(Palettes[p])
  {
    assert IsWellFormedPalette(Palettes[9]);
    assert IsWellFormedPalette(Palettes[10]);
    assert IsWellFormedPalette(Palettes[11]);
  }

  /** Every catalog palette holds five "#rrggbb" colours. */
  lemma CatalogWellFormed()
    ensures |Palettes| == 12
    ensures forall p :: 0 <= p < |Palettes| ==> IsWellFormedPalette(Palettes[p])
  {
    CatalogPart0();
    CatalogPart1();
    CatalogPart2();
    CatalogPart3();
  }

  /** Mapping commutes with the shuffle: shuffling the inputs and mapping them
      is mapping them and shuffling the results. */
  lemma MapShuffled<A, B>(f: A -> Result<B>, xs: seq<A>, draws: seq<nat>)
    requires ValidPrefix(|xs|, draws)
    requires MapAll(f, xs).Ok?
    ensures MapAll(f, Shuffled(xs, draws)) == Ok(Shuffled(MapAll(f, xs).value, draws))
  {
    var vs := MapAll(f, xs).value;
    var u, cs := Shuffled(xs, draws), Shuffled(vs, draws);
    ShuffledAt(xs, draws);
    ShuffledAt(vs, draws);
    assert forall k :: 0 <= k < |u| ==> f(u[k]) == Ok(cs[k]);
    assert MapAll(f, u).value == cs;
  }

  /** list(map(hex_to_rgb, ss)): every string parses and the colours are
      theirs, in order, or the first string that fails raises. */
  function ParseAll(ss: seq<string>): (r: Result<seq<Rgb>>)
    ensures r.Ok? <==> forall i :: 0 <= i < |ss| ==> HexToRgb(ss[i]).Ok?
    ensures r.Ok? ==> |r.value| == |ss| && forall i :: 0 <= i < |ss| ==> HexToRgb(ss[i]) == Ok(r.value[i])
    ensures r.Err? ==> exists i :: 0 <= i < |ss| && HexToRgb(ss[i]) == Err(r.error)
                                   && forall k :: 0 <= k < i ==> HexToRgb(ss[k]).Ok?
  {
    MapAll(HexToRgb, ss)
  }

  lemma ColourParses(s: string)
    requires IsHexColour(s)
    ensures HexToRgb(s).Ok? && IsByteColour(HexToRgb(s).value)
  {
    SixDigitColour(s);
  }

  /** Every colour of a well-formed palette parses, to a byte colour. */
  lemma WellFormedParses(p: seq<string>)
    requires IsWellFormedPalette(p)
    ensures forall i :: 0 <= i < 5 ==> HexToRgb(p[i]).Ok? && IsByteColour(HexToRgb(p[i]).value)
  {
    forall i | 0 <= i < 5 ensures HexToRgb(p[i]).Ok? && IsByteColour(HexToRgb(p[i]).value) {
      ColourParses(p[i]);
    }
  }

  /** The colours of catalog palette `choice`, in catalog order. */
  function CatalogColours(choice: nat): (cs: seq<Rgb>)
    requires choice < |Palettes|
    ensures |cs| == 5 && ParseAll(Palettes[choice]) == Ok(cs)
    ensures forall i :: 0 <= i < 5 ==> IsByteColour(cs[i])
  {
    CatalogWellFormed();
    WellFormedParses(Palettes[choice]);
    ParseAll(Palettes[choice]).value
  }

  /** choose_palette(): palette `choice` of the catalog, shuffled by `draws`,
      parsed. The result is five byte colours forming a permutation of the
      catalog palette. */
  method ChoosePalette(choice: nat, draws: seq<nat>) returns (palette: seq<Rgb>)
    requires choice < |Palettes|
    requires ValidDraws(5, draws)
    ensures |palette| == 5
    ensures ParseAll(Shuffled(Palettes[choice], draws)) == Ok(palette)
    ensures palette == Shuffled(CatalogColours(choice), draws)
    ensures multiset(palette) == multiset(CatalogColours(choice))
    ensures forall i :: 0 <= i < |palette| ==> IsByteColour(palette[i])
  {
    CatalogWellFormed();
    var entry := Palettes[choice];
    var p := new string[5](i requires 0 <= i < 5 => entry[i]);
    assert p[..] == entry;
    ShuffleInPlace(p, draws);
    var colours := CatalogColours(choice);
    MapShuffled(HexToRgb, entry, draws);
    var parsed := ParseAll(p[..]);
    palette := parsed.value;
    ShuffledPermutes(CatalogColours(choice), draws);
    forall i | 0 <= i < |palette| ensures IsByteColour(palette[i]) {
      assert palette[i] in multiset(CatalogColours(choice));
    }
  }
}
