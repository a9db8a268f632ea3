/**
 Recognized text blocks of overlapping regions: blocks with the same words in
 overlapping boxes are merged, and what is left is put in order and numbered.
 */
module BlockMerging {
  import opened Texts
  import opened ImageOrientation
  import opened Sorting
  import RecordKeys

  datatype Block = Block(region: string, order: nat, text: string, confidence: int, box: Box)

  predicate Overlap(a: Box, b: Box) {
    && a.x < b.x + b.width && b.x < a.x + a.width && a.x < a.x + a.width && b.x < b.x + b.width
    && a.y < b.y + b.height && b.y < a.y + a.height && a.y < a.y + a.height && b.y < b.y + b.height
  }

  ghost predicate Covers(b: Box, x: int, y: int) { b.x <= x < b.x + b.width && b.y <= y < b.y + b.height }

  /** Two boxes overlap exactly if some pixel is in both. */
  lemma OverlapIffSharedPixel(a: Box, b: Box)
    ensures Overlap(a, b) <==> exists x, y :: Covers(a, x, y) && Covers(b, x, y)
  {
    if Overlap(a, b) {
      var x, y := if a.x < b.x then b.x else a.x, if a.y < b.y then b.y else a.y;
      assert Covers(a, x, y) && Covers(b, x, y);
    }
  }

  predicate SameWords(a: Block, b: Block) { Collapsed(a.text) == Collapsed(b.text) }

  /** Two blocks have the same words if they do, one after the other, whatever is between them. */
  lemma SameWordsIff(a: Block, b: Block)
    ensures SameWords(a, b) <==> Words(a.text) == Words(b.text)
  {
    hide Words;
    WordsAreClean(a.text);
    WordsAreClean(b.text);
    WordsOfJoined(Words(a.text));
    WordsOfJoined(Words(b.text));
  }

  predicate Duplicates(a: Block, b: Block) { SameWords(a, b) && Overlap(a.box, b.box) }

  /** The position of the first retained duplicate, or the end. */
  function FirstDuplicate(retained: seq<Block>, b: Block): (i: nat)
    ensures i <= |retained| && (i < |retained| ==> Duplicates(retained[i], b))
    ensures forall j :: 0 <= j < i ==> !Duplicates(retained[j], b)
  {
    if retained == [] then 0
    else if Duplicates(retained[0], b) then 0
    else
      var i := FirstDuplicate(retained[1..], b);
      assert forall j :: 1 <= j < |retained| ==> retained[j] == retained[1..][j - 1];
      i + 1
  }

  /** A block with a retained duplicate replaces it if it is more confident, and is dropped if not. */
  function MergedWith(retained: seq<Block>, b: Block): seq<Block> {
    var i := FirstDuplicate(retained, b);
    if i == |retained| then retained + [b]
    else if b.confidence > retained[i].confidence then retained[i := b]
    else retained
  }

  function Merged(blocks: seq<Block>): (r: seq<Block>)
    ensures |r| <= |blocks|
  {
    if blocks == [] then [] else MergedWith(Merged(blocks[..|blocks| - 1]), blocks[|blocks| - 1])
  }

  /** What is retained keeps its place, and is only ever replaced by a more confident duplicate. */
  lemma {:induction false} MergedKeeps(blocks: seq<Block>, n: nat)
    requires n <= |blocks|
    ensures var before, after := Merged(blocks[..n]), Merged(blocks);
      |before| <= |after|
      && forall i :: 0 <= i < |before| ==>
           after[i] == before[i] || (SameWords(after[i], before[i]) && after[i].confidence > before[i].confidence)
    decreases |blocks| - n
  {
    hide SameWords, Overlap, FirstDuplicate;
    if n == |blocks| {
      assert blocks[..n] == blocks;
    } else {
      MergedKeeps(blocks, n + 1);
      var before, next := Merged(blocks[..n]), Merged(blocks[..n + 1]);
      assert blocks[..n + 1][..n] == blocks[..n];
      MergedOnce(before, blocks[n]);
      assert next == MergedWith(before, blocks[n]);
      hide MergedWith, Merged;
      forall i | 0 <= i < |before|
        ensures var after := Merged(blocks);
          after[i] == before[i] || (SameWords(after[i], before[i]) && after[i].confidence > before[i].confidence)
      {
        SameWordsTransitive(Merged(blocks)[i], next[i], before[i]);
      }
    }
  }

  lemma MergedOnce(retained: seq<Block>, b: Block)
    ensures var r := MergedWith(retained, b);
      |retained| <= |r|
      && forall i :: 0 <= i < |retained| ==>
           r[i] == retained[i] || (SameWords(r[i], retained[i]) && r[i].confidence > retained[i].confidence)
  {
  }

  lemma SameWordsTransitive(a: Block, b: Block, c: Block)
    ensures SameWords(a, b) && SameWords(b, c) ==> SameWords(a, c)
  {
  }

  predicate ByPlace(a: Block, b: Block) {
    if a.region == b.region then a.order <= b.order else RecordKeys.TextLe(a.region, b.region)
  }

  /** How many blocks there are of a region. */
  function CountOf(blocks: seq<Block>, region: string): nat {
    if blocks == [] then 0
    else CountOf(blocks[..|blocks| - 1], region) + (if blocks[|blocks| - 1].region == region then 1 else 0)
  }

  /** Each region's blocks are numbered from one, in the order they stand. */
  function Renumbered(blocks: seq<Block>): (r: seq<Block>)
    ensures |r| == |blocks|
    ensures forall i :: 0 <= i < |r| ==> r[i] == blocks[i].(order := CountOf(blocks[..i + 1], blocks[i].region))
  {
    seq(|blocks|, i requires 0 <= i < |blocks| => blocks[i].(order := CountOf(blocks[..i + 1], blocks[i].region)))
  }

  function Arranged(blocks: seq<Block>): seq<Block> { Renumbered(Sort(Merged(blocks), ByPlace)) }

  /** The numbering, with a counter for each region. */
  method Numbered(sorted: seq<Block>) returns (r: seq<Block>)
    ensures r == Renumbered(sorted)
  {
    hide CountOf;
    var counts: map<string, nat> := map[];
    NothingCounted();
    r := [];
    for n := 0 to |sorted|
      invariant r == Renumbered(sorted)[..n]
      invariant forall region :: (if region in counts then counts[region] else 0) == CountOf(sorted[..n], region)
    {
      var b := sorted[n];
      CountStep(sorted, n);
      counts := counts[b.region := (if b.region in counts then counts[b.region] else 0) + 1];
      r := r + [b.(order := counts[b.region])];
    }
    assert Renumbered(sorted)[..|sorted|] == Renumbered(sorted);
  }

  lemma NothingCounted()
    ensures forall region :: CountOf([], region) == 0
  {
  }

  lemma CountStep(blocks: seq<Block>, n: nat)
    requires n < |blocks|
    ensures forall region ::
      CountOf(blocks[..n + 1], region) == CountOf(blocks[..n], region) + (if region == blocks[n].region then 1 else 0)
  {
    assert blocks[..n + 1][..n] == blocks[..n];
  }

  method Deduplicate(blocks: seq<Block>) returns (r: seq<Block>, duplicates: nat)
    ensures r == Arranged(blocks) && |r| + duplicates == |blocks|
  {
    hide Duplicates, FirstDuplicate, MergedWith, Sort, ByPlace, Renumbered;
    var retained: seq<Block> := [];
    duplicates := 0;
    for n := 0 to |blocks|
      invariant retained == Merged(blocks[..n]) && |retained| + duplicates == n
    {
      assert blocks[..n + 1][..n] == blocks[..n];
      MergedSize(retained, blocks[n]);
      var i := FirstDuplicate(retained, blocks[n]);
      if i == |retained| {
        retained := retained + [blocks[n]];
      } else {
        duplicates := duplicates + 1;
        if blocks[n].confidence > retained[i].confidence {
          retained := retained[i := blocks[n]];
        }
      }
    }
    assert blocks[..|blocks|] == blocks;
    SortPermutes(retained, ByPlace);
    r := Numbered(Sort(retained, ByPlace));
  }

  lemma MergedSize(retained: seq<Block>, b: Block)
    ensures var i := FirstDuplicate(retained, b);
      MergedWith(retained, b) ==
        if i == |retained| then retained + [b] else if b.confidence > retained[i].confidence then retained[i := b] else retained
  {
  }

  // ----- what merging keeps, and what it drops --------------------------------------------------------

  /** Some block says the same words at least as confidently. */
  ghost predicate Covered(retained: seq<Block>, b: Block) {
    exists r :: r in retained && SameWords(r, b) && r.confidence >= b.confidence
  }

  lemma CoveredStill(retained: seq<Block>, last: Block, b: Block)
    requires Covered(retained, b)
    ensures Covered(MergedWith(retained, last), b)
  {
    hide Collapsed;
    var r :| r in retained && SameWords(r, b) && r.confidence >= b.confidence;
    var i := FirstDuplicate(retained, last);
    var next := MergedWith(retained, last);
    var k :| 0 <= k < |retained| && retained[k] == r;
    if k == i && last.confidence > r.confidence { assert next[i] == last; } else { assert next[k] == r; }
  }

  lemma LastCovered(retained: seq<Block>, last: Block)
    ensures Covered(MergedWith(retained, last), last)
  {
    var i := FirstDuplicate(retained, last);
    var next := MergedWith(retained, last);
    assert next[i] in next;
  }

  lemma {:induction false} MergedCovers(blocks: seq<Block>, b: Block)
    requires b in blocks
    ensures Covered(Merged(blocks), b)
  {
    hide Covered, MergedWith;
    var init, last := blocks[..|blocks| - 1], blocks[|blocks| - 1];
    if b in init {
      MergedCovers(init, b);
      CoveredStill(Merged(init), last, b);
    } else {
      LastCovered(Merged(init), last);
    }
  }

  /** Merging loses no text: of each block, some block of the result has the words, at no lower confidence. */
  lemma NoTextIsLost(blocks: seq<Block>, b: Block)
    requires b in blocks
    ensures Covered(Arranged(blocks), b)
  {
    hide Merged, Sort, Renumbered, Covered;
    MergedCovers(blocks, b);
    var sorted := Sort(Merged(blocks), ByPlace);
    SortPermutes(Merged(blocks), ByPlace);
    SameElements(sorted, Merged(blocks));
    RenumberingCovers(Merged(blocks), sorted, b);
  }

  lemma RenumberingCovers(retained: seq<Block>, sorted: seq<Block>, b: Block)
    requires Covered(retained, b) && forall r :: r in retained ==> r in sorted
    ensures Covered(Renumbered(sorted), b)
  {
    hide Collapsed, CountOf;
    var r :| r in retained && SameWords(r, b) && r.confidence >= b.confidence;
    var i :| 0 <= i < |sorted| && sorted[i] == r;
    var out := Renumbered(sorted)[i];
    assert out in Renumbered(sorted) && out.text == r.text && out.confidence == r.confidence;
  }

  /** Another block has the same words in an overlapping box, and is at least as confident. */
  ghost predicate Superseded(blocks: seq<Block>, b: Block) {
    exists other :: other in blocks && other != b && Duplicates(other, b) && other.confidence >= b.confidence
  }

  lemma {:induction false} MergedFrom(blocks: seq<Block>, b: Block)
    requires b in Merged(blocks)
    ensures b in blocks
  {
    if b != blocks[|blocks| - 1] { MergedFrom(blocks[..|blocks| - 1], b); }
  }

  lemma DuplicatesBothWays(a: Block, b: Block)
    ensures Duplicates(a, b) <==> Duplicates(b, a)
  {
  }

  lemma LastStays(retained: seq<Block>, last: Block)
    ensures last in MergedWith(retained, last)
            || exists r :: r in retained && r != last && Duplicates(r, last) && r.confidence >= last.confidence
  {
    var i := FirstDuplicate(retained, last);
    var next := MergedWith(retained, last);
    if i < |retained| && last.confidence <= retained[i].confidence { assert retained[i] in retained; } else { assert next[i] == last; }
  }

  lemma OthersStay(retained: seq<Block>, last: Block, b: Block)
    requires b in retained
    ensures b in MergedWith(retained, last) || (Duplicates(last, b) && last.confidence > b.confidence)
  {
    var i := FirstDuplicate(retained, last);
    DuplicatesBothWays(last, b);
    var k :| 0 <= k < |retained| && retained[k] == b;
    if k != i { assert MergedWith(retained, last)[k] == b; }
  }

  /** Only duplicates go: a block that is not retained has the same words as another block in an
      overlapping box that is at least as confident. */
  lemma {:induction false} OnlyDuplicatesGo(blocks: seq<Block>, b: Block)
    requires b in blocks && b !in Merged(blocks)
    ensures Superseded(blocks, b)
  {
    hide Duplicates, MergedWith;
    var init, last := blocks[..|blocks| - 1], blocks[|blocks| - 1];
    if b == last {
      LastStays(Merged(init), last);
      var r :| r in Merged(init) && r != last && Duplicates(r, last) && r.confidence >= last.confidence;
      MergedFrom(init, r);
    } else if b in Merged(init) {
      OthersStay(Merged(init), last, b);
      assert last in blocks;
    } else {
      OnlyDuplicatesGo(init, b);
    }
  }

  ghost predicate FreeOfDuplicates(blocks: seq<Block>) {
    forall i, j :: 0 <= i < j < |blocks| ==> !Duplicates(blocks[i], blocks[j])
  }

  lemma FreeStep(blocks: seq<Block>)
    requires blocks != []
    ensures var n := |blocks| - 1;
      FreeOfDuplicates(blocks) <==>
        FreeOfDuplicates(blocks[..n]) && forall j :: 0 <= j < n ==> !Duplicates(blocks[..n][j], blocks[n])
  {
    hide Duplicates;
    var n := |blocks| - 1;
    assert forall j :: 0 <= j < n ==> blocks[..n][j] == blocks[j];
  }

  /** Nothing is merged exactly if no two blocks are duplicates, and then all are retained as they came. */
  lemma {:induction false} MergesIffDuplicates(blocks: seq<Block>)
    ensures |Merged(blocks)| == |blocks| <==> FreeOfDuplicates(blocks)
    ensures FreeOfDuplicates(blocks) ==> Merged(blocks) == blocks
  {
    hide Duplicates, FreeOfDuplicates, Clear;
    if blocks == [] {
      NoneFree();
    } else {
      var n := |blocks| - 1;
      MergesIffDuplicates(blocks[..n]);
      ClearStep(blocks);
      MergedOneMore(blocks);
      hide Merged;
      if Merged(blocks[..n]) == blocks[..n] { assert blocks == blocks[..n] + [blocks[n]]; }
    }
  }

  /** No retained block is a duplicate of this one. */
  ghost predicate Clear(retained: seq<Block>, b: Block) { forall j :: 0 <= j < |retained| ==> !Duplicates(retained[j], b) }

  lemma ClearStep(blocks: seq<Block>)
    requires blocks != []
    ensures var n := |blocks| - 1;
      FreeOfDuplicates(blocks) <==> FreeOfDuplicates(blocks[..n]) && Clear(blocks[..n], blocks[n])
  {
    FreeStep(blocks);
    hide Duplicates, FreeOfDuplicates;
  }

  lemma MergedOneMore(blocks: seq<Block>)
    requires blocks != []
    ensures var before, b := Merged(blocks[..|blocks| - 1]), blocks[|blocks| - 1];
      if Clear(before, b) then Merged(blocks) == before + [b] else |Merged(blocks)| == |before|
  {
    hide Duplicates;
  }

  lemma NoneFree()
    ensures FreeOfDuplicates([])
  {
  }

  // ----- whether duplicates are left -------------------------------------------------------------------

  /** A more confident block would take the place of one block and duplicate another that the first does not. */
  ghost predicate Bridged(s: set<Block>) {
    exists a, b, c ::
      a in s && b in s && c in s && a.confidence < c.confidence && Duplicates(a, c) && Duplicates(c, b) && !Duplicates(a, b)
  }

  lemma NoBridge(s: set<Block>, a: Block, b: Block, c: Block)
    requires !Bridged(s) && a in s && b in s && c in s && a.confidence < c.confidence && Duplicates(a, c) && Duplicates(c, b)
    ensures Duplicates(a, b)
  {
  }

  lemma MergedWithIsFree(s: set<Block>, retained: seq<Block>, last: Block)
    requires FreeOfDuplicates(retained) && !Bridged(s) && last in s && forall a :: a in retained ==> a in s
    ensures FreeOfDuplicates(MergedWith(retained, last))
  {
    var i := FirstDuplicate(retained, last);
    var next := MergedWith(retained, last);
    hide Duplicates, FirstDuplicate, Bridged;
    forall j, k | 0 <= j < k < |next| ensures !Duplicates(next[j], next[k]) {
      if next[i] == last && i < |retained| && (j == i || k == i) {
        var other := retained[if j == i then k else j];
        DuplicatesBothWays(retained[i], other);
        DuplicatesBothWays(last, other);
        if last.confidence > retained[i].confidence && Duplicates(last, other) { NoBridge(s, retained[i], other, last); }
      }
    }
  }

  lemma {:induction false} MergedIsFree(s: set<Block>, blocks: seq<Block>)
    requires !Bridged(s) && forall b :: b in blocks ==> b in s
    ensures FreeOfDuplicates(Merged(blocks))
  {
    hide Duplicates, MergedWith, Bridged;
    if blocks == [] {
      NoneFree();
    } else {
      var n := |blocks| - 1;
      MergedIsFree(s, blocks[..n]);
      var retained := Merged(blocks[..n]);
      forall a | a in retained ensures a in s { MergedFrom(blocks[..n], a); }
      MergedWithIsFree(s, retained, blocks[n]);
    }
  }

  /** The bridge takes the place of the first block and stays beside the second, which it
      duplicates; merging the result again merges these. */
  lemma BridgeIsLeft(a: Block, b: Block, bridge: Block)
    requires a.confidence < bridge.confidence && Duplicates(a, bridge) && Duplicates(bridge, b) && !Duplicates(a, b)
    ensures Merged([a, b, bridge]) == [bridge, b] && !FreeOfDuplicates(Merged([a, b, bridge]))
    ensures |Merged(Merged([a, b, bridge]))| == 1
  {
    hide Duplicates;
    assert [a, b, bridge][..2] == [a, b] && [a, b][..1] == [a] && [a][..0] == [];
    assert Merged([a]) == [a] && Merged([a, b]) == [a, b];
    assert FirstDuplicate([a, b], bridge) == 0;
    assert [bridge, b][..1] == [bridge] && [bridge][..0] == [];
    assert Merged([bridge]) == [bridge] && FirstDuplicate([bridge], b) == 0;
    assert Duplicates([bridge, b][0], [bridge, b][1]);
  }

  // ----- the arrangement leaves duplicates as they are -----------------------------------------------------

  ghost predicate NoneDuplicates(b: Block, blocks: seq<Block>) { forall j :: 0 <= j < |blocks| ==> !Duplicates(b, blocks[j]) }

  lemma FreeFront(b: Block, blocks: seq<Block>)
    ensures FreeOfDuplicates([b] + blocks) <==> FreeOfDuplicates(blocks) && NoneDuplicates(b, blocks)
  {
    hide Duplicates;
    var all := [b] + blocks;
    assert forall j :: 0 <= j < |blocks| ==> all[j + 1] == blocks[j];
    if FreeOfDuplicates(all) {
      forall i, j | 0 <= i < j < |blocks| ensures !Duplicates(blocks[i], blocks[j]) { assert !Duplicates(all[i + 1], all[j + 1]); }
      forall j | 0 <= j < |blocks| ensures !Duplicates(b, blocks[j]) { assert !Duplicates(all[0], all[j + 1]); }
    }
  }

  lemma NoneOfMany(x: Block, some: seq<Block>, all: seq<Block>)
    requires forall b :: b in some <==> b in all
    ensures NoneDuplicates(x, some) <==> NoneDuplicates(x, all)
  {
    hide Duplicates;
    forall j | 0 <= j < |some| && NoneDuplicates(x, all) ensures !Duplicates(x, some[j]) {
      assert some[j] in some && some[j] in all;
    }
    forall j | 0 <= j < |all| && NoneDuplicates(x, some) ensures !Duplicates(x, all[j]) {
      assert all[j] in all && all[j] in some;
    }
  }

  lemma {:induction false} InsertIsFree(b: Block, blocks: seq<Block>)
    ensures FreeOfDuplicates(Insert(b, blocks, ByPlace)) <==> FreeOfDuplicates(blocks) && NoneDuplicates(b, blocks)
  {
    hide Duplicates, FreeOfDuplicates, NoneDuplicates, ByPlace;
    if blocks == [] || ByPlace(b, blocks[0]) {
      FreeFront(b, blocks);
    } else {
      var rest := Insert(b, blocks[1..], ByPlace);
      InsertIsFree(b, blocks[1..]);
      InsertPermutes(b, blocks[1..], ByPlace);
      SameElements(rest, [b] + blocks[1..]);
      NoneOfMany(blocks[0], rest, [b] + blocks[1..]);
      FreeFront(blocks[0], rest);
      FreeFront(blocks[0], blocks[1..]);
      assert blocks == [blocks[0]] + blocks[1..];
      FirstOf(blocks[0], b, blocks[1..]);
      FirstOf(b, blocks[0], blocks[1..]);
      DuplicatesBothWays(b, blocks[0]);
    }
  }

  lemma FirstOf(x: Block, first: Block, rest: seq<Block>)
    ensures NoneDuplicates(x, [first] + rest) <==> !Duplicates(x, first) && NoneDuplicates(x, rest)
  {
    hide Duplicates;
    var all := [first] + rest;
    assert all[0] == first && forall j :: 0 <= j < |rest| ==> all[j + 1] == rest[j];
    if NoneDuplicates(x, all) {
      forall j | 0 <= j < |rest| ensures !Duplicates(x, rest[j]) { assert !Duplicates(x, all[j + 1]); }
    }
  }

  lemma {:induction false} SortIsFree(blocks: seq<Block>)
    ensures FreeOfDuplicates(Sort(blocks, ByPlace)) <==> FreeOfDuplicates(blocks)
  {
    hide Duplicates, FreeOfDuplicates, NoneDuplicates, ByPlace, Insert;
    if blocks != [] {
      var rest := Sort(blocks[1..], ByPlace);
      SortIsFree(blocks[1..]);
      SortPermutes(blocks[1..], ByPlace);
      SameElements(rest, blocks[1..]);
      InsertIsFree(blocks[0], rest);
      NoneOfMany(blocks[0], rest, blocks[1..]);
      FreeFront(blocks[0], blocks[1..]);
      assert blocks == [blocks[0]] + blocks[1..];
    }
  }

  lemma NumberedDuplicate(a: Block, b: Block, i: nat, j: nat)
    ensures Duplicates(a.(order := i), b.(order := j)) <==> Duplicates(a, b)
  {
  }

  lemma RenumberedIsFree(blocks: seq<Block>)
    ensures FreeOfDuplicates(Renumbered(blocks)) <==> FreeOfDuplicates(blocks)
  {
    hide Duplicates, CountOf;
    var r := Renumbered(blocks);
    forall i, j | 0 <= i < j < |blocks| ensures Duplicates(r[i], r[j]) <==> Duplicates(blocks[i], blocks[j]) {
      NumberedDuplicate(blocks[i], blocks[j], r[i].order, r[j].order);
    }
  }

  lemma ArrangedIsFree(blocks: seq<Block>)
    ensures FreeOfDuplicates(Arranged(blocks)) <==> FreeOfDuplicates(Merged(blocks))
  {
    hide Merged, Sort, Renumbered, FreeOfDuplicates;
    SortIsFree(Merged(blocks));
    RenumberedIsFree(Sort(Merged(blocks), ByPlace));
  }

  /** Of some blocks, no list can leave duplicates in the result exactly if none of them bridges others. */
  lemma FreeIffNotBridged(s: set<Block>)
    ensures (forall blocks: seq<Block> :: (forall b :: b in blocks ==> b in s) ==> FreeOfDuplicates(Arranged(blocks)))
            <==> !Bridged(s)
  {
    hide Duplicates, Merged, Arranged, FreeOfDuplicates;
    if Bridged(s) {
      var a, b, c :| a in s && b in s && c in s && a.confidence < c.confidence
                     && Duplicates(a, c) && Duplicates(c, b) && !Duplicates(a, b);
      BridgeIsLeft(a, b, c);
      ArrangedIsFree([a, b, c]);
      assert forall x :: x in [a, b, c] ==> x in s;
    } else {
      hide Bridged;
      forall blocks: seq<Block> | forall b :: b in blocks ==> b in s ensures FreeOfDuplicates(Arranged(blocks)) {
        MergedIsFree(s, blocks);
        ArrangedIsFree(blocks);
      }
    }
  }

  // ----- the numbering --------------------------------------------------------------------------------

  lemma ByPlaceIsPreorder()
    ensures TotalPreorder(ByPlace)
  {
    forall a: Block, b: Block ensures ByPlace(a, b) || ByPlace(b, a) { RecordKeys.TextLeTotal(a.region, b.region); }
    forall a: Block, b: Block, c: Block | ByPlace(a, b) && ByPlace(b, c) ensures ByPlace(a, c) {
      if a.region != b.region && b.region != c.region {
        RecordKeys.TextLeTransitive(a.region, b.region, c.region);
        RecordKeys.TextLeTotal(a.region, b.region);
      }
    }
  }

  lemma {:induction false} NoneOf(blocks: seq<Block>, region: string)
    requires forall i :: 0 <= i < |blocks| ==> blocks[i].region != region
    ensures CountOf(blocks, region) == 0
  {
    if blocks != [] { NoneOf(blocks[..|blocks| - 1], region); }
  }

  lemma RegionStarts(s: seq<Block>, i: nat)
    requires Sorted(s, ByPlace) && i < |s| && (i == 0 || s[i - 1].region != s[i].region)
    ensures CountOf(s[..i], s[i].region) == 0
  {
    forall j | 0 <= j < i ensures s[..i][j].region != s[i].region {
      assert ByPlace(s[i - 1], s[i]) && (j == i - 1 || ByPlace(s[j], s[i - 1]));
      RecordKeys.TextLeTotal(s[i - 1].region, s[i].region);
    }
    NoneOf(s[..i], s[i].region);
  }

  /** The result is of the retained blocks, renumbered, those of a region as they were read. */
  ghost predicate InReadingOrder(read: seq<Block>, retained: seq<Block>, r: seq<Block>) {
    && multiset(read) == multiset(retained) && |r| == |read|
    && (forall i :: 0 <= i < |r| ==> r[i] == read[i].(order := r[i].order))
    && forall i, j :: 0 <= i < j < |r| && read[i].region == read[j].region ==> read[i].order <= read[j].order
  }

  /** Merging never changes the order in which the blocks of a region were read. */
  lemma RegionsKeepReadingOrder(blocks: seq<Block>)
    ensures exists read :: InReadingOrder(read, Merged(blocks), Arranged(blocks))
  {
    ByPlaceIsPreorder();
    SortSorts(Merged(blocks), ByPlace);
    SortPermutes(Merged(blocks), ByPlace);
    var read := Sort(Merged(blocks), ByPlace);
    hide Sort, Merged, CountOf;
    forall i, j | 0 <= i < j < |read| && read[i].region == read[j].region ensures read[i].order <= read[j].order {
      assert ByPlace(read[i], read[j]);
    }
    assert InReadingOrder(read, Merged(blocks), Arranged(blocks));
  }

  /** The blocks come region by region, in ascending order, and each region's are numbered from one
      without gaps. */
  lemma RegionsAreNumbered(blocks: seq<Block>, i: nat)
    requires i < |Arranged(blocks)|
    ensures var r := Arranged(blocks);
      && (i == 0 || r[i - 1].region != r[i].region ==> r[i].order == 1)
      && (i > 0 && r[i - 1].region == r[i].region ==> r[i].order == r[i - 1].order + 1)
      && (i > 0 && r[i - 1].region != r[i].region ==> RecordKeys.TextLe(r[i - 1].region, r[i].region))
  {
    ByPlaceIsPreorder();
    SortSorts(Merged(blocks), ByPlace);
    var s := Sort(Merged(blocks), ByPlace);
    hide Sort, Merged;
    assert s[..i + 1][..i] == s[..i];
    if i == 0 || s[i - 1].region != s[i].region { RegionStarts(s, i); }
    if i > 0 { assert ByPlace(s[i - 1], s[i]); }
  }
}
