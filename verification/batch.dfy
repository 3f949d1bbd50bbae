/** The batch emotion-scoring loop: filter a directory listing by image
    extension, decode and classify each candidate, and build one record per
    image that makes it through. Decoding and classification are outside
    capabilities, passed in as total functions. */
module BatchEmotion {
  import opened Wrappers
  import opened Rounding
  import opened Tables

  // ---------------------------------------------------------------------
  // Extension filter
  // ---------------------------------------------------------------------

  /** ASCII lower-casing of one character. */
  function LowerChar(c: char): char {
    if 'A' <= c <= 'Z' then (c as int + 32) as char else c
  }

  function Lower(s: string): string {
    seq(|s|, i requires 0 <= i < |s| => LowerChar(s[i]))
  }

  predicate EndsWith(s: string, suffix: string) {
    |suffix| <= |s| && s[|s| - |suffix|..] == suffix
  }

  /** `file.lower().endswith((".jpg", ".png", ".jpeg"))` */
  predicate IsImageName(file: string)
  {
    var l := Lower(file);
    EndsWith(l, ".jpg") || EndsWith(l, ".png") || EndsWith(l, ".jpeg")
  }

  /** Only the tail of a name decides the filter: whatever precedes it is
      irrelevant. */
  lemma ImageNameDependsOnSuffix(prefix: string, file: string)
    requires IsImageName(file)
    ensures IsImageName(prefix + file)
  {
    var l := Lower(file);
    var pl := Lower(prefix + file);
    assert pl[|prefix|..] == l by {
      forall i | 0 <= i < |l| ensures pl[|prefix| + i] == l[i] {
        assert (prefix + file)[|prefix| + i] == file[i];
      }
    }
    if EndsWith(l, ".jpg") || EndsWith(l, ".png") {
      assert pl[|pl| - 4..] == l[|l| - 4..];
    } else {
      assert pl[|pl| - 5..] == l[|l| - 5..];
    }
  }

  /** The filter is case-insensitive and rejects names whose image
      extension is not the last one. */
  lemma ImageNameExamples()
    ensures IsImageName("chart.JPG") && IsImageName("crowd.Jpeg") && IsImageName(".png")
    ensures !IsImageName("notes.txt") && !IsImageName("photo.jpg.bak") && !IsImageName("jpg")
  {
    assert Lower("chart.JPG") == "chart.jpg";
    assert Lower("crowd.Jpeg") == "crowd.jpeg";
    assert Lower(".png") == ".png";
    assert Lower("notes.txt") == "notes.txt";
    assert Lower("photo.jpg.bak") == "photo.jpg.bak";
    assert Lower("jpg") == "jpg";
  }

  // ---------------------------------------------------------------------
  // Records
  // ---------------------------------------------------------------------

  /** One face as reported by the classifier: a probability (percentage)
      per emotion label, and the label the classifier calls dominant. */
  datatype Analysis = Analysis(emotion: map<string, real>, dominant: string)

  /** The labels whose probabilities add up to the fear score. */
  const FearLabels: set<string> := {"fear", "angry", "sad", "surprise"}

  /** The keys the record literal writes before spreading the emotions. */
  const RecordKeys: set<string> := {"image", "dominant_emotion", "fear_score"}

  function FearSum(e: map<string, real>): real
    requires FearLabels <= e.Keys
  {
    e["fear"] + e["angry"] + e["sad"] + e["surprise"]
  }

  /** The record for `file` built from the classifier's first face. A
      missing fear label raises inside the guarded block, so no record is
      built. The emotions are spread last and win over the three fixed
      keys when their names collide. */
  function MakeRecord(file: string, a: Analysis): (r: Option<Row>)
    ensures r.Some? <==> FearLabels <= a.emotion.Keys
    ensures r.Some? ==> r.value.Keys == RecordKeys + a.emotion.Keys
    ensures r.Some? ==> forall k :: k in a.emotion ==> r.value[k] == Num(Round2(a.emotion[k]))
    ensures r.Some? && RecordKeys !! a.emotion.Keys ==>
              && r.value["image"] == Text(file)
              && r.value["dominant_emotion"] == Text(a.dominant)
              && r.value["fear_score"] == Num(Round2(FearSum(a.emotion)))
  {
    if !(FearLabels <= a.emotion.Keys) then None
    else
      var fixed := map["image" := Text(file),
                       "dominant_emotion" := Text(a.dominant),
                       "fear_score" := Num(Round2(FearSum(a.emotion)))];
      var spread := map k | k in a.emotion :: Num(Round2(a.emotion[k]));
      Some(fixed + spread)
  }

  /** The fear score of a record is not always the sum of the four rounded
      emotion cells stored beside it: the program rounds the raw sum. */
  lemma FearScoreNotSumOfRoundedCells()
    ensures var a := Analysis(map["fear" := 0.004, "angry" := 0.004, "sad" := 0.004,
                                  "surprise" := 0.0], "neutral");
            var row := MakeRecord("a.jpg", a).value;
            row["fear_score"] == Num(0.01)
            && row["fear"] == Num(0.0) && row["angry"] == Num(0.0)
            && row["sad"] == Num(0.0) && row["surprise"] == Num(0.0)
  {
    var a := Analysis(map["fear" := 0.004, "angry" := 0.004, "sad" := 0.004,
                          "surprise" := 0.0], "neutral");
    assert RoundHalfEven(0.4) == 0;
    assert RoundHalfEven(0.0) == 0;
    assert RoundHalfEven(1.2) == 1;
    assert Round2(0.004) == 0.0;
    assert Round2(0.0) == 0.0;
    assert FearSum(a.emotion) == 0.012;
    assert Round2(0.012) == 0.01;
  }

  /** What does hold: the fear score is within 0.025 of the sum of the four
      rounded emotion cells, and it is non-negative when the probabilities
      are. */
  lemma FearScoreCloseToCells(file: string, a: Analysis)
    requires FearLabels <= a.emotion.Keys
    requires RecordKeys !! a.emotion.Keys
    ensures var row := MakeRecord(file, a).value;
            row["fear_score"].Num? && row["fear"].Num? && row["angry"].Num?
            && row["sad"].Num? && row["surprise"].Num?
            && -0.025 <= row["fear_score"].x
                         - (row["fear"].x + row["angry"].x + row["sad"].x + row["surprise"].x)
                         <= 0.025
    ensures (forall k :: k in a.emotion ==> a.emotion[k] >= 0.0) ==>
              MakeRecord(file, a).value["fear_score"].x >= 0.0
  {
    var row := MakeRecord(file, a).value;
    var e := a.emotion;
    assert row["fear_score"] == Num(Round2(FearSum(e)));
    assert row["fear"] == Num(Round2(e["fear"]));
    assert row["angry"] == Num(Round2(e["angry"]));
    assert row["sad"] == Num(Round2(e["sad"]));
    assert row["surprise"] == Num(Round2(e["surprise"]));
    if forall k :: k in e ==> e[k] >= 0.0 {
      Round2NonNegative(FearSum(e));
    }
  }

  // ---------------------------------------------------------------------
  // One file
  // ---------------------------------------------------------------------

  /** The loop body for one directory entry: `None` when the entry is
      skipped (wrong extension, unreadable image, classifier failure, no
      face reported, missing fear label). */
  function ProcessFile<Img>(file: string, decode: string -> Option<Img>,
                            classify: Img -> Result<seq<Analysis>, string>): (r: Option<Row>)
    ensures r.Some? <==>
              && IsImageName(file)
              && decode(file).Some?
              && classify(decode(file).value).Success?
              && |classify(decode(file).value).value| > 0
              && FearLabels <= classify(decode(file).value).value[0].emotion.Keys
    ensures r.Some? ==> r == MakeRecord(file, classify(decode(file).value).value[0])
  {
    if !IsImageName(file) then None
    else match decode(file)
      case None => None
      case Some(img) =>
        match classify(img)
        case Failure(_) => None
        case Success(faces) =>
          if |faces| == 0 then None else MakeRecord(file, faces[0])
  }

  /** The classifier never reports an emotion label named like one of the
      record's fixed keys. */
  ghost predicate SeparateVocabulary<Img(!new)>(classify: Img -> Result<seq<Analysis>, string>) {
    forall img: Img :: classify(img).Success? ==>
      forall i :: 0 <= i < |classify(img).value| ==>
        RecordKeys !! classify(img).value[i].emotion.Keys
  }

  /** A record names the file it came from, copies the classifier's
      dominant label unchanged, and carries the rounded fear sum. */
  lemma RecordFields<Img(!new)>(file: string, decode: string -> Option<Img>,
                          classify: Img -> Result<seq<Analysis>, string>)
    requires SeparateVocabulary(classify)
    requires ProcessFile(file, decode, classify).Some?
    ensures var row := ProcessFile(file, decode, classify).value;
            var a := classify(decode(file).value).value[0];
            && row["image"] == Text(file)
            && row["dominant_emotion"] == Text(a.dominant)
            && row["fear_score"] == Num(Round2(FearSum(a.emotion)))
  {
    var img := decode(file).value;
    assert RecordKeys !! classify(img).value[0].emotion.Keys;
  }

  // ---------------------------------------------------------------------
  // The whole listing
  // ---------------------------------------------------------------------

  /** The loop body as a function of the entry alone. */
  function Scorer<Img>(decode: string -> Option<Img>,
                       classify: Img -> Result<seq<Analysis>, string>): string -> Option<Row>
  {
    file => ProcessFile(file, decode, classify)
  }

  /** The records a listing yields, in listing order. */
  function Batch<Img>(listing: seq<string>, decode: string -> Option<Img>,
                      classify: Img -> Result<seq<Analysis>, string>): seq<Row>
  {
    FilterMap(listing, Scorer(decode, classify))
  }

  /** The entries that pass the extension filter, in listing order. */
  function Candidates(listing: seq<string>): (c: seq<string>)
    ensures |c| <= |listing|
    ensures forall f :: f in c <==> f in listing && IsImageName(f)
  {
    if |listing| == 0 then []
    else if IsImageName(listing[0]) then [listing[0]] + Candidates(listing[1..])
    else Candidates(listing[1..])
  }

  /** Entries that fail the extension filter contribute nothing. */
  lemma {:induction false} FilterMapOfCandidates(listing: seq<string>, f: string -> Option<Row>)
    requires forall file :: f(file).Some? ==> IsImageName(file)
    ensures FilterMap(Candidates(listing), f) == FilterMap(listing, f)
  {
    if |listing| > 0 {
      FilterMapOfCandidates(listing[1..], f);
      if IsImageName(listing[0]) {
        var c := Candidates(listing);
        assert c[0] == listing[0] && c[1..] == Candidates(listing[1..]);
      }
    }
  }

  /** Only candidates contribute, so there are never more records than
      candidate files. */
  lemma BatchOfCandidates<Img>(listing: seq<string>, decode: string -> Option<Img>,
                               classify: Img -> Result<seq<Analysis>, string>)
    ensures Batch(Candidates(listing), decode, classify) == Batch(listing, decode, classify)
    ensures |Batch(listing, decode, classify)| <= |Candidates(listing)|
  {
    FilterMapOfCandidates(listing, Scorer(decode, classify));
  }

  /** Splitting the listing splits the records: each entry's record depends
      on that entry alone, and order is kept. */
  lemma BatchAppend<Img>(a: seq<string>, b: seq<string>, decode: string -> Option<Img>,
                         classify: Img -> Result<seq<Analysis>, string>)
    ensures Batch(a + b, decode, classify) == Batch(a, decode, classify) + Batch(b, decode, classify)
  {
    FilterMapAppend(a, b, Scorer(decode, classify));
  }

  /** What `Tracks` says about a finished run, in terms of single entries:
      record `j` is exactly what entry `sources[j]` yields, the positions
      increase (listing order is kept), and every entry that yields a record
      is among them, so the records are in one-to-one correspondence with
      the entries that decode and classify successfully. */
  lemma BatchProvenance<Img>(listing: seq<string>, decode: string -> Option<Img>,
                             classify: Img -> Result<seq<Analysis>, string>,
                             records: seq<Row>, sources: seq<nat>)
    requires Tracks(listing, |listing|, Scorer(decode, classify), records, sources)
    ensures |sources| == |records|
    ensures forall j :: 0 <= j < |sources| ==>
              sources[j] < |listing| && ProcessFile(listing[sources[j]], decode, classify) == Some(records[j])
    ensures forall j, k :: 0 <= j < k < |sources| ==> sources[j] < sources[k]
    ensures forall i :: 0 <= i < |listing| && ProcessFile(listing[i], decode, classify).Some? ==> i in sources
  {
    var step := Scorer(decode, classify);
    forall j | 0 <= j < |sources|
      ensures ProcessFile(listing[sources[j]], decode, classify) == Some(records[j])
    {
      assert step(listing[sources[j]]) == Some(records[j]);
    }
    forall i | 0 <= i < |listing| && ProcessFile(listing[i], decode, classify).Some?
      ensures i in sources
    {
      assert step(listing[i]).Some?;
    }
  }

  /** One pass of the loop body, step by step: filter, decode, classify,
      build the record. */
  method ScoreEntry<Img>(file: string, decode: string -> Option<Img>,
                         classify: Img -> Result<seq<Analysis>, string>)
    returns (outcome: Option<Row>)
    ensures outcome == ProcessFile(file, decode, classify) == Scorer(decode, classify)(file)
  {
    outcome := None;
    if !IsImageName(file) {
      return;
    }
    match decode(file) {
      case None =>
      case Some(img) =>
        match classify(img) {
          case Failure(_) =>
          case Success(faces) =>
            if |faces| > 0 {
              outcome := MakeRecord(file, faces[0]);
            }
        }
    }
  }

  /** The program's loop. Besides the records it returns, for each record,
      the position in the listing it came from: positions increase, each
      record is exactly what its entry yields, and every entry that yields
      a record is among them. */
  method RunBatch<Img>(listing: seq<string>, decode: string -> Option<Img>,
                       classify: Img -> Result<seq<Analysis>, string>)
    returns (records: seq<Row>, sources: seq<nat>)
    ensures records == Batch(listing, decode, classify)
    ensures Tracks(listing, |listing|, Scorer(decode, classify), records, sources)
  {
    var step := Scorer(decode, classify);
    records, sources := [], [];
    var i: nat := 0;
    while i < |listing|
      invariant i <= |listing|
      invariant Tracks(listing, i, step, records, sources)
    {
      var outcome := ScoreEntry(listing[i], decode, classify);
      TracksStep(listing, i, step, records, sources);
      if outcome.Some? {
        records := records + [outcome.value];
        sources := sources + [i];
      }
      i := i + 1;
    }
    assert listing[..i] == listing;
  }
}
