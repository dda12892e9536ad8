/**
 * The region and palette logic of `extractDominantColors`
 * (interior-design-backend/services/imageAnalysisService.js).
 *
 * Decoding and the per-region statistics of the image library are not
 * modelled: a picture carries its size, the dominant colour of the whole
 * picture, and a function giving the dominant colour of a region (or the
 * message of the error the library throws for it).
 */
module ColorExtraction {
  import opened Wrappers
  import opened Seqs
  import opened ColorUtils

  datatype Rgb = Rgb(r: Byte, g: Byte, b: Byte)

  function Hex(c: Rgb): string {
    RgbToHex([c.r, c.g, c.b])
  }

  /** An extraction rectangle: `{left, top, width, height}`. */
  datatype Region = Region(left: nat, top: nat, width: nat, height: nat)

  predicate Covers(g: Region, x: int, y: int) {
    g.left <= x < g.left + g.width && g.top <= y < g.top + g.height
  }

  datatype Picture = Picture(width: nat, height: nat, dominant: Rgb, regionDominant: Region -> Result<Rgb>)

  /** An uploaded file as the image library sees it: undecodable (with the error message) or decoded. */
  datatype Image = Undecodable(reason: string) | Decoded(picture: Picture)

  /** The colour information `extractDominantColors` returns on success. */
  datatype Colors = Colors(dominant: string, palette: seq<string>)

  /**
   * The four sampling regions, each `floor(w/2)` by `floor(h/2)`, at
   * x in {0, floor(w/2)} and y in {0, floor(h/2)}: top-left, top-right,
   * bottom-left, bottom-right. They lie inside the picture, no pixel is in
   * two of them, and together they cover the `2*floor(w/2)` by
   * `2*floor(h/2)` rectangle at the origin and nothing else, so with an odd
   * width (height) the last column (row) is sampled by none of them.
   */
  function Regions(width: nat, height: nat): (rs: seq<Region>)
    ensures |rs| == 4
    ensures forall i, x, y :: 0 <= i < 4 && Covers(rs[i], x, y) ==> 0 <= x < width && 0 <= y < height
    ensures forall i, j, x, y :: 0 <= i < j < 4 && Covers(rs[i], x, y) ==> !Covers(rs[j], x, y)
    ensures forall x, y ::
      (0 <= x < 2 * (width / 2) && 0 <= y < 2 * (height / 2)) <==>
      (Covers(rs[0], x, y) || Covers(rs[1], x, y) || Covers(rs[2], x, y) || Covers(rs[3], x, y))
  {
    var w, h := width / 2, height / 2;
    [Region(0, 0, w, h), Region(w, 0, w, h), Region(0, h, w, h), Region(w, h, w, h)]
  }

  /** `Promise.all` over the regions' statistics: all colours, or the first region's error. */
  function RegionColors(p: Picture, rs: seq<Region>): (r: Result<seq<Rgb>>)
    ensures r.Ok? ==> |r.value| == |rs| && forall i :: 0 <= i < |rs| ==> p.regionDominant(rs[i]) == Ok(r.value[i])
    ensures r.Err? <==> exists i :: 0 <= i < |rs| && p.regionDominant(rs[i]).Err?
    decreases |rs|
  {
    if rs == [] then Ok([])
    else
      match p.regionDominant(rs[0])
      case Err(m) => Err(m)
      case Ok(c) =>
        match RegionColors(p, rs[1..])
        case Err(m) => Err(m)
        case Ok(cs) => Ok([c] + cs)
  }

  /**
   * The encodings of the region colours: entry i is a lower-case `#rrggbb`
   * colour that parses back to colour i.
   */
  function HexAll(cs: seq<Rgb>): (hs: seq<string>)
    ensures |hs| == |cs| && forall i :: 0 <= i < |cs| ==> hs[i] == Hex(cs[i])
    ensures forall i :: 0 <= i < |cs| ==>
      IsLowerHexColor(hs[i]) && HasHexChannels(hs[i]) && Channels(hs[i]) == (cs[i].r, cs[i].g, cs[i].b)
  {
    var hs := seq(|cs|, i requires 0 <= i < |cs| => Hex(cs[i]));
    assert forall i :: 0 <= i < |cs| ==>
      IsLowerHexColor(hs[i]) && HasHexChannels(hs[i]) && Channels(hs[i]) == (cs[i].r, cs[i].g, cs[i].b) by {
      forall i | 0 <= i < |cs|
        ensures IsLowerHexColor(hs[i]) && HasHexChannels(hs[i]) && Channels(hs[i]) == (cs[i].r, cs[i].g, cs[i].b)
      {
        assert hs[i] == RgbToHex([cs[i].r, cs[i].g, cs[i].b]);
        RgbToHexOfBytes(cs[i].r, cs[i].g, cs[i].b);
        ChannelsOfRgbToHex(cs[i].r, cs[i].g, cs[i].b);
      }
    }
    hs
  }

  /**
   * `extractDominantColors`: the dominant colour of the picture and the
   * Set-based dedup of the four region colours, in region order; any
   * library error becomes an error result carrying its message.
   */
  function ExtractDominantColors(image: Image): (r: Result<Colors>)
    ensures image.Undecodable? ==> r == Err(image.reason)
    ensures r.Ok? ==> IsLowerHexColor(r.value.dominant)
    ensures r.Ok? ==> |r.value.palette| <= 4 && Distinct(r.value.palette)
    ensures r.Ok? ==> forall c :: c in r.value.palette ==> IsLowerHexColor(c)
  {
    match image
    case Undecodable(reason) => Err(reason)
    case Decoded(p) =>
      var d := p.dominant;
      RgbToHexOfBytes(d.r, d.g, d.b);
      match RegionColors(p, Regions(p.width, p.height))
      case Err(m) => Err(m)
      case Ok(cs) =>
        var hs := HexAll(cs);
        UniqueProperties(hs);
        Ok(Colors(Hex(d), Unique(hs)))
  }

  /**
   * On success the palette holds exactly the encodings of the four region
   * colours (in some order, without repetition), and the colour is
   * decided by the picture's statistics only.
   */
  lemma PaletteOfRegions(p: Picture)
    requires ExtractDominantColors(Decoded(p)).Ok?
    ensures var rs := Regions(p.width, p.height);
      var colors := ExtractDominantColors(Decoded(p)).value;
      && colors.dominant == Hex(p.dominant)
      && (forall i :: 0 <= i < 4 ==> p.regionDominant(rs[i]).Ok? && Hex(p.regionDominant(rs[i]).value) in colors.palette)
      && (forall c :: c in colors.palette ==> exists i :: 0 <= i < 4 && p.regionDominant(rs[i]).Ok? && c == Hex(p.regionDominant(rs[i]).value))
  {
    var rs := Regions(p.width, p.height);
    var cs := RegionColors(p, rs).value;
    UniqueProperties(HexAll(cs));
    forall c | c in Unique(HexAll(cs))
      ensures exists i :: 0 <= i < 4 && p.regionDominant(rs[i]).Ok? && c == Hex(p.regionDominant(rs[i]).value)
    {
      var i :| 0 <= i < 4 && HexAll(cs)[i] == c;
    }
  }

  /**
   * Four quadrants of pairwise different colours give a palette of exactly
   * those four colours, in quadrant order.
   */
  lemma DistinctQuadrants(p: Picture)
    requires var rs := Regions(p.width, p.height);
      forall i :: 0 <= i < 4 ==> p.regionDominant(rs[i]).Ok?
    requires var rs := Regions(p.width, p.height);
      forall i, j :: 0 <= i < j < 4 ==> p.regionDominant(rs[i]) != p.regionDominant(rs[j])
    ensures var rs := Regions(p.width, p.height);
      ExtractDominantColors(Decoded(p)).Ok? &&
      ExtractDominantColors(Decoded(p)).value.palette ==
        seq(4, i requires 0 <= i < 4 => Hex(p.regionDominant(rs[i]).value))
  {
    var rs := Regions(p.width, p.height);
    var r := RegionColors(p, rs);
    assert r.Ok?;
    var hs := HexAll(r.value);
    assert Distinct(hs) by {
      forall i, j | 0 <= i < j < 4 ensures hs[i] != hs[j] {
        var a, b := r.value[i], r.value[j];
        if hs[i] == hs[j] {
          RgbToHexInjective(a.r, a.g, a.b, b.r, b.g, b.b);
          assert false;
        }
      }
    }
    UniqueOfDistinct(hs);
  }
}
