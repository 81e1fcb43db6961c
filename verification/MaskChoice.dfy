/** Making a symbol: the version, eight trial symbols, the mask that scored best. */
module MaskChoice {
  import opened Wrappers
  import opened BitBuffer
  import opened Segments
  import opened QrMath
  import opened Polynomial
  import opened Codewords
  import opened BlockTable
  import opened SymbolData
  import opened ZigZag
  import opened Patterns
  import opened Symbol

  // A trial symbol: the data under this mask, with every module of the format
  // and version words left light.
  ghost function Trial(version: int, data: seq<Slot>, pattern: int): (g: Grid)
    requires 1 <= version <= 40 && 0 <= pattern < 8
    ensures IsGrid(g, ModuleCount(version))
    ensures IsPlaced(Template(version, Words(true, 0, 0)), g, ModuleCount(version), Unpacked(Numbers(data)), pattern)
  {
    hide Template, PlacedCell, Unpacked, Numbers;
    var n, g: Grid := ModuleCount(version), Template(version, Words(true, 0, 0));
    seq(n, x requires 0 <= x < n => seq(n, y requires 0 <= y < n =>
      PlacedCell(g, n, Unpacked(Numbers(data)), pattern, (x, y))))
  }

  lemma TrialTemplate(version: int, words: Words)
    requires 1 <= version <= 40 && words.test
    ensures Template(version, words) == Template(version, Words(true, 0, 0))
  {
    hide Fixed;
    var n := ModuleCount(version);
    forall x, y | 0 <= x < n && 0 <= y < n
      ensures TemplateCell(version, words, x, y) == TemplateCell(version, Words(true, 0, 0), x, y)
    {}
    hide TemplateCell;
    SameGrid(Template(version, words), Template(version, Words(true, 0, 0)), n);
  }

  // A trial is the same symbol whatever words it was not given.
  lemma TrialIs(version: int, words: Words, g: Grid, data: seq<Slot>, pattern: int)
    requires 1 <= version <= 40 && 0 <= pattern < 8 && words.test
    requires IsPlaced(Template(version, words), g, ModuleCount(version), Unpacked(Numbers(data)), pattern)
    ensures g == Trial(version, data, pattern)
  {
    hide Template, PlacedCell, Unpacked, Numbers;
    TrialTemplate(version, words);
    SameGrid(g, Trial(version, data, pattern), ModuleCount(version));
  }

  // The first of the masks whose trials lose the fewest points.
  ghost predicate Best(lost: Grid -> real, version: int, data: seq<Slot>, pattern: int, upTo: int)
    requires 1 <= version <= 40 && upTo <= 8
  {
    && 0 <= pattern < upTo
    && (forall i :: 0 <= i < upTo ==> lost(Trial(version, data, pattern)) <= lost(Trial(version, data, i)))
    && (forall i :: 0 <= i < pattern ==> lost(Trial(version, data, pattern)) < lost(Trial(version, data, i)))
  }

  lemma BestNext(lost: Grid -> real, version: int, data: seq<Slot>, pattern: int, i: int)
    requires 1 <= version <= 40 && 0 < i < 8 && Best(lost, version, data, pattern, i)
    ensures var better := lost(Trial(version, data, i)) < lost(Trial(version, data, pattern));
            Best(lost, version, data, if better then i else pattern, i + 1)
  {
    hide Trial;
  }

  lemma BestOfOne(lost: Grid -> real, version: int, data: seq<Slot>)
    requires 1 <= version <= 40
    ensures Best(lost, version, data, 0, 1)
  {
    hide Trial;
  }

  // The loop over the masks.  The first trial already fails when the data cannot
  // be encoded.
  method GetBestMaskPattern(math: Tables, version: int, level: Level, segs: seq<Segment>, lost: Grid -> real)
    returns (pattern: int, outcome: Outcome)
    requires math.Valid() && WritableBytes(segs) && 1 <= version <= 40
    ensures outcome == Expected(version, level, segs) && 0 <= pattern < 8
    ensures outcome.Codewords? ==> Best(lost, version, outcome.data, pattern, 8)
  {
    hide Expected, Template, PlacedCell, IsPlaced, Unpacked, Numbers, Trial, Best, IsFormat, IsVersion;
    var minLostPoint := 0.0;
    pattern, outcome := 0, UnknownVersion;
    for i := 0 to 8
      invariant 0 <= pattern < 8
      invariant i > 0 ==> outcome == Expected(version, level, segs) && outcome.Codewords?
      invariant i > 0 ==> Best(lost, version, outcome.data, pattern, i)
      invariant i > 0 ==> minLostPoint == lost(Trial(version, outcome.data, pattern))
    {
      var modules, words;
      modules, outcome, words := MakeImpl(math, version, level, segs, true, i);
      if !outcome.Codewords? {
        return;
      }
      TrialIs(version, words, Snapshot(modules), outcome.data, i);
      var lostPoint := lost(Snapshot(modules));
      if i == 0 {
        BestOfOne(lost, version, outcome.data);
      } else {
        BestNext(lost, version, outcome.data, pattern, i);
      }
      if i == 0 || minLostPoint > lostPoint {
        minLostPoint := lostPoint;
        pattern := i;
      }
    }
  }

  // The outcome a caller can expect of a version it asked for, or, below 1, of
  // the smallest that has room.
  ghost predicate Made(typeNumber: int, level: Level, segs: seq<Segment>, version: int, outcome: Outcome) {
    && (outcome.UnknownVersion? <==> typeNumber > 40)
    && (typeNumber <= 40 ==> (outcome.IllegalCharacter? <==> !AllLegal(segs)))
    && (1 <= typeNumber <= 40 && AllLegal(segs) ==> (outcome.Codewords? <==> FitsVersion(segs, typeNumber, level)))
    && (typeNumber < 1 && AllLegal(segs) ==>
          (outcome.Codewords? <==> exists v :: 1 <= v <= 40 && FitsVersion(segs, v, level)))
    && (outcome.Codewords? ==>
          && 1 <= version <= 40
          && if typeNumber >= 1 then version == typeNumber
             else FitsVersion(segs, version, level) && forall v :: 1 <= v < version ==> !FitsVersion(segs, v, level))
  }

  // The finished symbol: its words, and its data under this mask.
  ghost predicate IsSymbol(g: Grid, version: int, level: Level, mask: int, data: seq<Slot>)
    requires 1 <= version <= 40 && 0 <= mask < 8
  {
    exists words: Words ::
      !words.test && IsFormat(words.info, level, mask) && IsVersion(words.number, version)
      && IsPlaced(Template(version, words), g, ModuleCount(version), Unpacked(Numbers(data)), mask)
  }

  // It has no undecided module and reads back as the segments.
  lemma SymbolReads(g: Grid, version: int, level: Level, mask: int, segs: seq<Segment>, data: seq<Slot>)
    requires 1 <= version <= 40 && 0 <= mask < 8 && Expected(version, level, segs) == Codewords(data)
    requires IsSymbol(g, version, level, mask, data)
    ensures ReadGrid(g) == Some(segs) && IsGrid(g, ModuleCount(version))
    ensures forall x, y :: 0 <= x < ModuleCount(version) && 0 <= y < ModuleCount(version) ==> g[x][y].Module?
  {
    hide Expected, IsPlaced, Template, IsFormat, IsVersion, Unpacked, Numbers, ReadGrid, ModuleCount;
    var words: Words :|
      !words.test && IsFormat(words.info, level, mask) && IsVersion(words.number, version)
      && IsPlaced(Template(version, words), g, ModuleCount(version), Unpacked(Numbers(data)), mask);
    SymbolDecodes(version, level, mask, words, g, segs, data);
    AllPlaced(version, words, g, Unpacked(Numbers(data)), mask);
  }

  // However trial symbols are scored: the symbol made carries the data under the
  // best mask, is complete, and reads back as the segments.  An exception leaves
  // no symbol.
  method Make(math: Tables, typeNumber: int, level: Level, segs: seq<Segment>, lost: Grid -> real)
    returns (modules: array2<Cell>, version: int, mask: int, outcome: Outcome)
    requires math.Valid() && WritableBytes(segs)
    ensures fresh(modules) && modules.Length0 == modules.Length1
    ensures Made(typeNumber, level, segs, version, outcome)
    ensures outcome.Codewords? ==>
      && 1 <= version <= 40 && modules.Length0 == ModuleCount(version)
      && Best(lost, version, outcome.data, mask, 8)
      && IsSymbol(Snapshot(modules), version, level, mask, outcome.data)
      && ReadGrid(Snapshot(modules)) == Some(segs)
      && forall x, y :: 0 <= x < modules.Length0 && 0 <= y < modules.Length0 ==> modules[x, y].Module?
  {
    hide Expected, FitsVersion, IsPlaced, Template, IsFormat, IsVersion, Unpacked;
    hide Numbers, ReadGrid, Best, IsSymbol, ModuleCount, AllLegal;
    modules := new Cell[0, 0];
    version, mask := typeNumber, 0;
    if version > 40 {
      outcome := UnknownVersion;
      return;
    }
    if version < 1 {
      var ok;
      version, ok := ChooseVersion(level, segs);
      if !ok {
        outcome := IllegalCharacter;
        return;
      }
    }
    WhenCodewords(version, level, segs);
    mask, outcome := GetBestMaskPattern(math, version, level, segs, lost);
    if outcome.Codewords? {
      var words;
      modules, outcome, words := MakeImpl(math, version, level, segs, false, mask);
      assert IsSymbol(Snapshot(modules), version, level, mask, outcome.data) by {
        Drawn(words, Snapshot(modules), version, level, mask, outcome.data);
      }
      SymbolReads(Snapshot(modules), version, level, mask, segs, outcome.data);
    }
  }

  lemma Drawn(words: Words, g: Grid, version: int, level: Level, mask: int, data: seq<Slot>)
    requires 1 <= version <= 40 && 0 <= mask < 8
    requires !words.test && IsFormat(words.info, level, mask) && IsVersion(words.number, version)
    requires IsPlaced(Template(version, words), g, ModuleCount(version), Unpacked(Numbers(data)), mask)
    ensures IsSymbol(g, version, level, mask, data)
  {
    hide IsFormat, IsVersion, IsPlaced, Template, ModuleCount, Unpacked, Numbers;
  }
}
