/**
 Reading an object of a known size, and recognizing text region by region. The
 recognizer is a function.
 */
module TextRecognition {
  import opened Wrappers
  import opened Texts
  import opened ImageOrientation
  import opened BlockMerging
  import opened Grouping

  datatype OcrError = RegionLimit | RegionInvalid | TextLimit | BlockLimit | EngineFailed

  // ----- reading exactly the expected bytes ------------------------------------------------

  const CHUNK := 65_536

  /** A stream that answers each read with some part of what is asked for, and with nothing
      only at its end. */
  class Stream {
    const content: seq<bv8>
    const portions: seq<nat>
    var at: nat
    var calls: nat

    constructor (content: seq<bv8>, portions: seq<nat>)
      ensures this.content == content && at == 0
    {
      this.content, this.portions := content, portions;
      at, calls := 0, 0;
    }

    method Read(limit: nat) returns (chunk: seq<bv8>)
      requires limit > 0 && at <= |content|
      modifies this
      ensures old(at) <= at <= |content| && at - old(at) <= limit && chunk == content[old(at)..at]
      ensures at == old(at) <==> old(at) == |content|
    {
      var wanted := if calls < |portions| && 0 < portions[calls] < limit then portions[calls] else limit;
      var next := if at + wanted <= |content| then at + wanted else |content|;
      chunk := content[at..next];
      at, calls := next, calls + 1;
    }
  }

  /** Succeeds exactly on an object of the expected size, and never reads more than one byte beyond it. */
  method ReadExactBounded(stream: Stream, expected: int) returns (r: Result<seq<bv8>, OcrError>)
    requires stream.at == 0
    modifies stream
    ensures expected < 1 ==> r == Failure(EngineFailed)
    ensures expected >= 1 ==>
      r == if |stream.content| == expected then Success(stream.content) else Failure(EngineFailed)
    ensures expected >= 1 ==> stream.at <= expected + 1
  {
    if expected < 1 {
      return Failure(EngineFailed);
    }
    var raw: seq<bv8> := [];
    while |raw| <= expected
      invariant |raw| <= expected + 1 && stream.at == |raw| && |raw| <= |stream.content|
      invariant raw == stream.content[..|raw|]
      decreases expected + 1 - |raw|
    {
      var limit := if CHUNK < expected + 1 - |raw| then CHUNK else expected + 1 - |raw|;
      var chunk := stream.Read(limit);
      if chunk == [] {
        break;
      }
      raw := raw + chunk;
    }
    if |raw| != expected {
      return Failure(EngineFailed);
    }
    assert stream.content[..|raw|] == stream.content;
    return Success(raw);
  }

  // ----- blocks of recognized text ----------------------------------------------------------

  datatype RawBlock = RawBlock(text: string, confidence: int, box: Box)

  datatype Region = Region(id: string, box: Box)

  /** What the constructor of an analyzed region accepts. */
  predicate ValidRegion(r: Region) {
    Visible(r.id) && |r.id| <= 50 && r.box.x >= 0 && r.box.y >= 0 && r.box.width >= 1 && r.box.height >= 1
  }

  /** The blocks that are left after merging, and how many were merged into them. */
  datatype Evidence = Evidence(blocks: seq<Block>, duplicates: nat)

  datatype Limits = Limits(regions: nat, blocks: nat, characters: nat, blockCharacters: nat)

  /** Basis points of a coordinate. */
  function Relative(x: int, size: int): int
    requires size > 0
  {
    x * 10_000 / size
  }

  const LONGEST := 500_000

  /** The texts that the constructor of a block accepts: among them, one in its normal form. */
  predicate TextAccepted(region: string, text: string) {
    Visible(region) && |region| <= 50 && text != "" && |text| <= LONGEST && text == PlainForm(text)
  }

  /** What the constructor of a block accepts: also a relative size of at least one basis point. */
  predicate Creatable(b: Block, width: int, height: int) {
    && TextAccepted(b.region, b.text)
    && width >= 1 && height >= 1 && Inside(b.box, width, height) && 0 <= b.confidence <= 10_000
    && Relative(b.box.x, width) < Relative(b.box.x + b.box.width, width) <= 10_000
    && Relative(b.box.y, height) < Relative(b.box.y + b.box.height, height) <= 10_000
  }

  /** Between two coordinates there is a mark of the scale of ten thousand, after the one and up to the other. */
  ghost predicate MarkBetween(from: int, to: int, size: int) { exists k: int :: from * 10_000 < k * size <= to * 10_000 }

  lemma RelativeGrows(from: int, to: int, size: int)
    requires size > 0
    ensures Relative(from, size) < Relative(to, size) <==> MarkBetween(from, to, size)
  {
    var a, b := Relative(from, size), Relative(to, size);
    assert a * size <= from * 10_000 < (a + 1) * size && b * size <= to * 10_000 < (b + 1) * size;
    if a < b { MarkAt(a, b, from, to, size); }
    if k: int :| from * 10_000 < k * size <= to * 10_000 {
      MarkOrders(k, b, size);
      MarkOrders(a, k - 1, size);
    }
  }

  lemma MarkAt(a: int, b: int, from: int, to: int, size: int)
    requires size > 0 && a < b && from * 10_000 < (a + 1) * size && b * size <= to * 10_000
    ensures MarkBetween(from, to, size)
  {
    assert (a + 1) * size <= b * size;
    assert from * 10_000 < b * size <= to * 10_000;
  }

  lemma MarkOrders(a: int, b: int, size: int)
    requires size > 0
    ensures a > b ==> a * size >= (b + 1) * size
  {
  }

  /** A block is accepted exactly if its text and confidence are, it lies in the image, and on either
      axis some mark of the relative scale falls into it. */
  lemma CreatableIff(b: Block, width: int, height: int)
    ensures Creatable(b, width, height) <==>
      && TextAccepted(b.region, b.text) && 0 <= b.confidence <= 10_000
      && width >= 1 && height >= 1 && Inside(b.box, width, height)
      && MarkBetween(b.box.x, b.box.x + b.box.width, width) && MarkBetween(b.box.y, b.box.y + b.box.height, height)
  {
    if width >= 1 && height >= 1 && Inside(b.box, width, height) {
      RelativeGrows(b.box.x, b.box.x + b.box.width, width);
      RelativeGrows(b.box.y, b.box.y + b.box.height, height);
      WithinScale(b.box.x + b.box.width, width);
      WithinScale(b.box.y + b.box.height, height);
    }
  }

  lemma WithinScale(x: int, size: int)
    requires 0 <= x <= size && size > 0
    ensures Relative(x, size) <= 10_000
  {
  }

  /** Of the texts that recognition comes to, only one that is too long is not accepted. */
  lemma RecognizedText(region: string, text: string)
    requires Visible(region) && |region| <= 50 && PlainForm(text) != ""
    ensures TextAccepted(region, PlainForm(text)) <==> |PlainForm(text)| <= LONGEST
  {
    hide PlainForm;
    PlainFormAgain(text);
  }

  predicate InCrop(raw: RawBlock, crop: Box) {
    raw.box.x >= 0 && raw.box.y >= 0 && raw.box.width >= 1 && raw.box.height >= 1
    && raw.box.x + raw.box.width <= crop.width && raw.box.y + raw.box.height <= crop.height
  }

  /** A raw block is in its crop exactly if it has pixels, and all of them are pixels of the crop. */
  lemma InCropIff(raw: RawBlock, crop: Box)
    ensures InCrop(raw, crop) <==>
      && (exists x, y :: Covers(raw.box, x, y))
      && forall x, y :: Covers(raw.box, x, y) ==> 0 <= x < crop.width && 0 <= y < crop.height
  {
    var b := raw.box;
    if b.width >= 1 && b.height >= 1 {
      assert Covers(b, b.x, b.y) && Covers(b, b.x + b.width - 1, b.y + b.height - 1);
    }
  }

  ghost predicate AllInCrop(raw: seq<RawBlock>, crop: Box) {
    forall i :: 0 <= i < |raw| ==> InCrop(raw[i], crop)
  }

  /** A recognized block in the coordinates of the oriented image. */
  function Moved(region: string, order: nat, crop: Box, raw: RawBlock): Block {
    Block(region, order, PlainForm(raw.text), raw.confidence,
          Box(crop.x + raw.box.x, crop.y + raw.box.y, raw.box.width, raw.box.height))
  }

  /** A block is where it was found: the oriented image, cropped by the box of the block, is what was
      shown of the region, cropped by the box that the recognizer gave. */
  lemma MovedShowsTheSame<T>(image: Image<T>, crop: Box, region: string, order: nat, raw: RawBlock)
    requires image.Valid() && Inside(crop, image.width, image.height) && InCrop(raw, crop)
    ensures var b := Moved(region, order, crop, raw);
      && Inside(b.box, image.width, image.height) && Inside(raw.box, Crop(image, crop).width, Crop(image, crop).height)
      && Crop(image, b.box) == Crop(Crop(image, crop), raw.box)
      && b.region == region && b.order == order && b.text == PlainForm(raw.text) && b.confidence == raw.confidence
  {
    hide Crop, Rearranged, Image.At, PlainForm;
    var b := Moved(region, order, crop, raw);
    CropSize(image, crop);
    CropSize(image, b.box);
    CropSize(Crop(image, crop), raw.box);
    forall x, y | 0 <= x < raw.box.width && 0 <= y < raw.box.height
      ensures Crop(image, b.box).At(x, y) == Crop(Crop(image, crop), raw.box).At(x, y)
    {
      CropAt(image, b.box, x, y);
      CropAt(Crop(image, crop), raw.box, x, y);
      CropAt(image, crop, raw.box.x + x, raw.box.y + y);
    }
    SameImage(Crop(image, b.box), Crop(Crop(image, crop), raw.box));
  }

  /** The blocks of one region that have text, numbered in reading order. */
  function Placed(region: string, crop: Box, raw: seq<RawBlock>): (blocks: seq<Block>)
    ensures forall i :: 0 <= i < |blocks| ==> blocks[i].order == i + 1 && blocks[i].region == region && blocks[i].text != ""
  {
    if raw == [] then []
    else
      var before, last := Placed(region, crop, raw[..|raw| - 1]), raw[|raw| - 1];
      if PlainForm(last.text) == "" then before else before + [Moved(region, |before| + 1, crop, last)]
  }

  predicate HasText(raw: RawBlock) { PlainForm(raw.text) != "" }

  /** The blocks placed are the raw blocks with text, in their order, numbered and moved. */
  lemma {:induction false} PlacedAre(region: string, crop: Box, raw: seq<RawBlock>)
    ensures var found := Where(raw, HasText);
      && |Placed(region, crop, raw)| == |found|
      && forall k: nat :: k < |found| ==> Placed(region, crop, raw)[k] == Moved(region, k + 1, crop, found[k])
  {
    hide PlainForm, Moved;
    if raw != [] { PlacedAre(region, crop, raw[..|raw| - 1]); }
  }

  function Characters(blocks: seq<Block>): nat {
    if blocks == [] then 0 else Characters(blocks[..|blocks| - 1]) + |blocks[|blocks| - 1].text|
  }

  /** A stored image with the orientation it was analyzed to have. */
  datatype Analyzed<T> = Analyzed(image: Image<T>, orientation: Orientation) {
    ghost predicate Valid() { image.Valid() }

    function Oriented(): Image<T>
      requires Valid()
    {
      Orient(image, orientation)
    }
  }

  /** What the recognizer is shown of a region, as a part of the stored image. */
  function Shown<T>(a: Analyzed<T>, region: Region): Image<T>
    requires a.Valid() && Inside(region.box, a.image.width, a.image.height)
  {
    Orient(Crop(a.image, region.box), a.orientation)
  }

  /** The box of a region in the oriented image. */
  function CropBox<T>(a: Analyzed<T>, region: Region): Box
    requires a.Valid() && Inside(region.box, a.image.width, a.image.height)
  {
    OrientedBox(region.box, a.image.width, a.image.height, a.orientation).value
  }

  /** All blocks, region after region: of each region, what the recognizer finds in its part of
      the stored image, turned upright. */
  function AllPlaced<T>(a: Analyzed<T>, engine: Image<T> -> seq<RawBlock>, regions: seq<Region>): seq<Block>
    requires a.Valid() && forall i :: 0 <= i < |regions| ==> Inside(regions[i].box, a.image.width, a.image.height)
  {
    if regions == [] then []
    else
      var last := regions[|regions| - 1];
      AllPlaced(a, engine, regions[..|regions| - 1])
      + Placed(last.id, CropBox(a, last), engine(Shown(a, last)))
  }

  ghost predicate BlocksFit(blocks: seq<Block>, size: (nat, nat), limits: Limits) {
    && |blocks| <= limits.blocks && Characters(blocks) <= limits.characters
    && forall i :: 0 <= i < |blocks| ==> |blocks[i].text| <= limits.blockCharacters && Creatable(blocks[i], size.0, size.1)
  }

  /** One region: appends its blocks, or gives up at the first that is misplaced or too much. */
  method AppendRegion(region: string, crop: Box, raw: seq<RawBlock>, size: (nat, nat), limits: Limits,
                      found: seq<Block>) returns (r: Result<seq<Block>, OcrError>)
    requires BlocksFit(found, size, limits)
    ensures r.Success? ==> r.value == found + Placed(region, crop, raw)
    ensures r.Success? <==> AllInCrop(raw, crop) && BlocksFit(found + Placed(region, crop, raw), size, limits)
  {
    hide BlocksFit, Creatable, Placed, InCrop, Characters, PlainForm;
    var blocks, total, order := found, Characters(found), 0;
    PlacedNothing(region, crop);
    for i := 0 to |raw|
      invariant blocks == found + Placed(region, crop, raw[..i])
      invariant order == |Placed(region, crop, raw[..i])|
      invariant total == Characters(blocks) && BlocksFit(blocks, size, limits)
      invariant forall j :: 0 <= j < i ==> InCrop(raw[j], crop)
    {
      PlacedStep(region, crop, raw, i);
      if !InCrop(raw[i], crop) {
        return Failure(RegionInvalid);
      }
      var text := PlainForm(raw[i].text);
      if text == "" {
        continue;
      }
      order := order + 1;
      var block := Moved(region, order, crop, raw[i]);
      OneMoreFits(blocks, block, size, limits);
      if |text| > limits.blockCharacters || total + |text| > limits.characters || |blocks| >= limits.blocks
         || !Creatable(block, size.0, size.1) {
        Reassociated(found, Placed(region, crop, raw[..i]), block);
        MisfitRemains(region, crop, raw, i + 1, size, limits, found);
        return Failure(if |text| > limits.blockCharacters || total + |text| > limits.characters then TextLimit
                       else if |blocks| >= limits.blocks then BlockLimit else RegionInvalid);
      }
      Reassociated(found, Placed(region, crop, raw[..i]), block);
      total, blocks := total + |text|, blocks + [block];
    }
    assert raw[..|raw|] == raw;
    return Success(blocks);
  }

  lemma Reassociated(found: seq<Block>, placed: seq<Block>, block: Block)
    ensures (found + placed) + [block] == found + (placed + [block])
  {
  }

  lemma PlacedNothing(region: string, crop: Box)
    ensures Placed(region, crop, []) == []
  {
  }

  lemma PlacedStep(region: string, crop: Box, raw: seq<RawBlock>, i: nat)
    requires i < |raw|
    ensures var before := Placed(region, crop, raw[..i]);
      Placed(region, crop, raw[..i + 1]) ==
        if PlainForm(raw[i].text) == "" then before else before + [Moved(region, |before| + 1, crop, raw[i])]
  {
    assert raw[..i + 1][..i] == raw[..i];
  }

  lemma OneMoreFits(blocks: seq<Block>, block: Block, size: (nat, nat), limits: Limits)
    requires BlocksFit(blocks, size, limits)
    ensures Characters(blocks + [block]) == Characters(blocks) + |block.text|
    ensures BlocksFit(blocks + [block], size, limits) <==>
      (&& |block.text| <= limits.blockCharacters && Characters(blocks) + |block.text| <= limits.characters
       && |blocks| < limits.blocks && Creatable(block, size.0, size.1))
  {
    hide Creatable;
  }

  lemma {:induction false} PrefixFits(blocks: seq<Block>, k: nat, size: (nat, nat), limits: Limits)
    requires k <= |blocks| && BlocksFit(blocks, size, limits)
    ensures BlocksFit(blocks[..k], size, limits)
    decreases |blocks| - k
  {
    hide Creatable;
    if k == |blocks| {
      assert blocks[..k] == blocks;
    } else {
      PrefixFits(blocks, k + 1, size, limits);
      assert blocks[..k + 1][..k] == blocks[..k];
    }
  }

  lemma {:induction false} PlacedPrefix(region: string, crop: Box, raw: seq<RawBlock>, k: nat)
    requires k <= |raw|
    ensures Placed(region, crop, raw[..k]) <= Placed(region, crop, raw)
    decreases |raw| - k
  {
    hide Placed;
    if k == |raw| {
      assert raw[..k] == raw;
    } else {
      PlacedPrefix(region, crop, raw, k + 1);
      PlacedStep(region, crop, raw, k);
    }
  }

  lemma MisfitRemains(region: string, crop: Box, raw: seq<RawBlock>, k: nat, size: (nat, nat),
                      limits: Limits, found: seq<Block>)
    requires k <= |raw| && !BlocksFit(found + Placed(region, crop, raw[..k]), size, limits)
    ensures !BlocksFit(found + Placed(region, crop, raw), size, limits)
  {
    hide BlocksFit, Placed;
    var part, all := Placed(region, crop, raw[..k]), Placed(region, crop, raw);
    PlacedPrefix(region, crop, raw, k);
    assert (found + all)[..|found + part|] == found + part;
    if BlocksFit(found + all, size, limits) { PrefixFits(found + all, |found + part|, size, limits); }
  }

  /** Whether regions, recognized blocks and limits allow a result. */
  ghost predicate Acceptable<T(!new)>(a: Analyzed<T>, engine: Image<T> -> seq<RawBlock>,
                                regions: seq<Region>, limits: Limits)
    requires a.Valid()
  {
    && |regions| <= limits.regions
    && (forall i :: 0 <= i < |regions| ==> Inside(regions[i].box, a.image.width, a.image.height))
    && (forall i :: 0 <= i < |regions| ==> AllInCrop(engine(Shown(a, regions[i])), CropBox(a, regions[i])))
    && BlocksFit(AllPlaced(a, engine, regions), Size(a), limits)
  }

  lemma {:induction false} PlacedPrefixOf<T>(a: Analyzed<T>, engine: Image<T> -> seq<RawBlock>,
                                                regions: seq<Region>, k: nat)
    requires a.Valid() && forall i :: 0 <= i < |regions| ==> Inside(regions[i].box, a.image.width, a.image.height)
    requires k <= |regions|
    ensures AllPlaced(a, engine, regions[..k]) <= AllPlaced(a, engine, regions)
    decreases |regions| - k
  {
    hide Placed, Shown, CropBox, Inside;
    if k == |regions| {
      assert regions[..k] == regions;
    } else {
      PlacedPrefixOf(a, engine, regions, k + 1);
      assert regions[..k + 1][..k] == regions[..k];
    }
  }

  function Size<T>(a: Analyzed<T>): (nat, nat)
    requires a.Valid()
  {
    OrientedSize(a.image.width, a.image.height, a.orientation)
  }

  lemma SizeIsOriented<T>(a: Analyzed<T>)
    requires a.Valid()
    ensures Size(a) == (a.Oriented().width, a.Oriented().height)
  {
  }

  /** The regions before `i` are recognized and placed, and nothing of them was refused. */
  ghost predicate PlacedSoFar<T>(a: Analyzed<T>, engine: Image<T> -> seq<RawBlock>, regions: seq<Region>,
                                 i: nat, blocks: seq<Block>, limits: Limits)
    requires a.Valid() && i <= |regions|
  {
    && (forall j :: 0 <= j < i ==> Inside(regions[j].box, a.image.width, a.image.height))
    && blocks == AllPlaced(a, engine, regions[..i]) && BlocksFit(blocks, Size(a), limits)
    && forall j :: 0 <= j < i ==> AllInCrop(engine(Shown(a, regions[j])), CropBox(a, regions[j]))
  }

  /** `shown` is the image the caller oriented. The result is there exactly when everything is
      acceptable, and then it is what the recognizer finds in the oriented parts, duplicates merged. */
  method RecognizeRegions<T(!new)>(a: Analyzed<T>, shown: Image<T>, regions: seq<Region>, engine: Image<T> -> seq<RawBlock>,
                             limits: Limits) returns (r: Result<Evidence, OcrError>)
    requires a.Valid() && shown == a.Oriented() && forall i :: 0 <= i < |regions| ==> ValidRegion(regions[i])
    ensures r.Success? <==> Acceptable(a, engine, regions, limits)
    ensures r.Success? ==>
      var all := AllPlaced(a, engine, regions);
      r.value.blocks == Arranged(all) && r.value.duplicates == |all| - |Arranged(all)|
  {
    if |regions| > limits.regions {
      return Failure(RegionLimit);
    }
    hide PlacedSoFar, Acceptable, BlocksFit, AllPlaced, AllInCrop, Orient, Crop, OrientedBox, Placed, Shown, CropBox, Inside, Size,
      Arranged;
    var blocks: seq<Block> := [];
    NothingPlaced(a, engine, regions, limits);
    for i := 0 to |regions|
      invariant PlacedSoFar(a, engine, regions, i, blocks, limits)
    {
      RegionIsShown(a, shown, regions[i]);
      var box := OrientedBox(regions[i].box, a.image.width, a.image.height, a.orientation);
      if box.None? {
        OutsideIsRefused(a, engine, regions, i, limits);
        return Failure(RegionInvalid);
      }
      PlacedOneMore(a, engine, regions, i, blocks, limits);
      var appended := AppendRegion(regions[i].id, box.value, engine(Crop(shown, box.value)), Size(a), limits, blocks);
      if appended.Failure? {
        return Failure(appended.error);
      }
      blocks := appended.value;
    }
    AllPlacedIsAcceptable(a, engine, regions, blocks, limits);
    var merged, duplicates := Deduplicate(blocks);
    return Success(Evidence(merged, duplicates));
  }

  lemma NothingPlaced<T(!new)>(a: Analyzed<T>, engine: Image<T> -> seq<RawBlock>, regions: seq<Region>, limits: Limits)
    requires a.Valid()
    ensures PlacedSoFar(a, engine, regions, 0, [], limits)
  {
  }

  lemma OutsideIsRefused<T(!new)>(a: Analyzed<T>, engine: Image<T> -> seq<RawBlock>, regions: seq<Region>,
                                  i: nat, limits: Limits)
    requires a.Valid() && i < |regions| && !Inside(regions[i].box, a.image.width, a.image.height)
    ensures !Acceptable(a, engine, regions, limits)
  {
  }

  /** The blocks of one more region are placed, or the whole is not acceptable. */
  lemma PlacedOneMore<T(!new)>(a: Analyzed<T>, engine: Image<T> -> seq<RawBlock>, regions: seq<Region>,
                               i: nat, blocks: seq<Block>, limits: Limits)
    requires a.Valid() && i < |regions| && PlacedSoFar(a, engine, regions, i, blocks, limits)
    requires Inside(regions[i].box, a.image.width, a.image.height)
    ensures var raw, box := engine(Shown(a, regions[i])), CropBox(a, regions[i]);
      var more := blocks + Placed(regions[i].id, box, raw);
      && BlocksFit(blocks, Size(a), limits)
      && (AllInCrop(raw, box) && BlocksFit(more, Size(a), limits) ==> PlacedSoFar(a, engine, regions, i + 1, more, limits))
      && (Acceptable(a, engine, regions, limits) ==> AllInCrop(raw, box) && BlocksFit(more, Size(a), limits))
  {
    hide BlocksFit, AllPlaced, AllInCrop, Placed, Shown, CropBox, Inside, Acceptable;
    OneMorePlaced(a, engine, regions, i);
    if Acceptable(a, engine, regions, limits) {
      AcceptableSoFar(a, engine, regions, i + 1, limits);
    }
  }

  lemma AllPlacedIsAcceptable<T(!new)>(a: Analyzed<T>, engine: Image<T> -> seq<RawBlock>, regions: seq<Region>,
                                       blocks: seq<Block>, limits: Limits)
    requires a.Valid() && PlacedSoFar(a, engine, regions, |regions|, blocks, limits) && |regions| <= limits.regions
    ensures Acceptable(a, engine, regions, limits) && blocks == AllPlaced(a, engine, regions)
  {
    hide BlocksFit, AllPlaced, AllInCrop, Shown, CropBox, Inside;
    assert regions[..|regions|] == regions;
  }

  lemma OneMorePlaced<T>(a: Analyzed<T>, engine: Image<T> -> seq<RawBlock>, regions: seq<Region>, i: nat)
    requires a.Valid() && i < |regions|
    requires forall j :: 0 <= j <= i ==> Inside(regions[j].box, a.image.width, a.image.height)
    ensures AllPlaced(a, engine, regions[..i + 1]) ==
      AllPlaced(a, engine, regions[..i])
      + Placed(regions[i].id, CropBox(a, regions[i]), engine(Shown(a, regions[i])))
  {
    hide Shown, CropBox;
    assert regions[..i + 1][..i] == regions[..i];
  }

  /** A region has an oriented box exactly when it is inside the image, and the oriented image
      cropped by it is what is shown of the region. */
  lemma RegionIsShown<T>(a: Analyzed<T>, shown: Image<T>, region: Region)
    requires a.Valid() && shown == a.Oriented() && ValidRegion(region)
    ensures var box := OrientedBox(region.box, a.image.width, a.image.height, a.orientation);
      && (box.Some? <==> Inside(region.box, a.image.width, a.image.height))
      && (box.Some? ==>
            && Inside(box.value, shown.width, shown.height) && box.value == CropBox(a, region)
            && Crop(shown, box.value) == Shown(a, region))
  {
    if Inside(region.box, a.image.width, a.image.height) {
      CroppingCommutes(a.image, region.box, a.orientation);
      hide Orient, Crop;
    }
  }

  lemma AcceptableSoFar<T(!new)>(a: Analyzed<T>, engine: Image<T> -> seq<RawBlock>, regions: seq<Region>,
                                 k: nat, limits: Limits)
    requires a.Valid() && 0 < k <= |regions| && Acceptable(a, engine, regions, limits)
    ensures forall j :: 0 <= j < k ==> Inside(regions[j].box, a.image.width, a.image.height)
    ensures AllInCrop(engine(Shown(a, regions[k - 1])), CropBox(a, regions[k - 1]))
    ensures BlocksFit(AllPlaced(a, engine, regions[..k]), Size(a), limits)
  {
    hide BlocksFit, AllInCrop, AllPlaced, Shown, CropBox, Inside;
    PlacedPrefixOf(a, engine, regions, k);
    var part, all := AllPlaced(a, engine, regions[..k]), AllPlaced(a, engine, regions);
    assert all[..|part|] == part;
    PrefixFits(all, |part|, Size(a), limits);
  }
}
