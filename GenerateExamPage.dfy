/** The data helpers of the exam generation page: grouping questions by
    subject name, the text sanitiser of the Word export, the repetition
    analysis across generated versions, and the subject and chapter
    selection with its points-per-subject map. */
module GenerateExamPage {
  import opened JsRuntime
  import opened Grouping

  /** A subject as the page loads it. */
  datatype Matiere = Matiere(id: int, nomMatiere: string)

  /** A question as the page shows it; only its id and subject matter here,
      `texte` stands for the rest of the row. */
  datatype PageQuestion = PageQuestion(id: int, idMatiere: int, texte: string)

  // ---------------------------------------------------------------------
  // groupQuestionsByMatiere

  /** `allMatieres.find(m => m.id === idMatiere)`. */
  function FindMatiere(allMatieres: seq<Matiere>, idMatiere: int): (r: Option<Matiere>)
    ensures r.Some? ==> r.value.id == idMatiere
    ensures r.Some? ==> exists i :: 0 <= i < |allMatieres| && allMatieres[i] == r.value
                                    && forall j :: 0 <= j < i ==> allMatieres[j].id != idMatiere
    ensures r.None? <==> forall i :: 0 <= i < |allMatieres| ==> allMatieres[i].id != idMatiere
  {
    if allMatieres == [] then None
    else if allMatieres[0].id == idMatiere then Some(allMatieres[0])
    else
      var rest := FindMatiere(allMatieres[1..], idMatiere);
      assert forall i :: 1 <= i < |allMatieres| ==> allMatieres[i] == allMatieres[1..][i - 1];
      rest
  }

  /** The bucket name of a question: its subject's name, or the
      placeholder when no loaded subject has its id. */
  function MatiereName(allMatieres: seq<Matiere>, q: PageQuestion): string
  {
    match FindMatiere(allMatieres, q.idMatiere)
    case Some(m) => m.nomMatiere
    case None => UnknownMatiere
  }

  function NameKey(allMatieres: seq<Matiere>): PageQuestion -> string
  {
    q => MatiereName(allMatieres, q)
  }

  /** `None` stands for a value that is not an array. */
  method GroupQuestionsByMatiere(questions: Option<seq<PageQuestion>>, allMatieres: seq<Matiere>)
    returns (groups: map<string, seq<PageQuestion>>)
    ensures questions.None? ==> groups == map[]
    ensures questions.Some? ==>
              groups.Keys == KeysOf(questions.value, NameKey(allMatieres))
              && forall k :: k in groups ==> groups[k] == Bucket(questions.value, NameKey(allMatieres), k)
    ensures questions.Some? ==>
              forall q :: q in questions.value ==>
                MatiereName(allMatieres, q) in groups && q in groups[MatiereName(allMatieres, q)]
  {
    if questions.None? {
      return map[];
    }
    var key := NameKey(allMatieres);
    groups := GroupBy(questions.value, key);
    forall q | q in questions.value
      ensures MatiereName(allMatieres, q) in groups && q in groups[MatiereName(allMatieres, q)]
    {
      var i :| 0 <= i < |questions.value| && questions.value[i] == q;
      assert key(questions.value[i]) in KeysOf(questions.value, key);
      BucketMembers(questions.value, key, key(q), q);
    }
  }

  // ---------------------------------------------------------------------
  // sanitizeXmlText

  /** The text with every apostrophe removed, other characters kept in order. */
  function WithoutApostrophes(s: string): (r: string)
    ensures '\'' !in r
    ensures forall c :: c in r <==> c in s && c != '\''
    ensures |r| <= |s|
  {
    if s == [] then []
    else (if s[0] == '\'' then [] else [s[0]]) + WithoutApostrophes(s[1..])
  }

  /** Non-strings give the empty text. The ampersand, angle-bracket and
      quote replacements of the source map each character to itself, so
      only the apostrophe removal changes the text. */
  function SanitizeXmlText(text: JsValue): string
  {
    match text
    case JString(s) => WithoutApostrophes(s)
    case _ => ""
  }

  lemma {:induction false} SanitizeXmlTextFacts(text: JsValue)
    ensures !text.JString? ==> SanitizeXmlText(text) == ""
    ensures '\'' !in SanitizeXmlText(text)
    ensures text.JString? ==> forall c :: c in SanitizeXmlText(text) <==> c in text.s && c != '\''
    ensures text.JString? && '\'' !in text.s ==> SanitizeXmlText(text) == text.s
  {
    if text.JString? && '\'' !in text.s {
      NoApostropheUnchanged(text.s);
    }
  }

  lemma {:induction false} NoApostropheUnchanged(s: string)
    requires '\'' !in s
    ensures WithoutApostrophes(s) == s
  {
    if s != [] {
      NoApostropheUnchanged(s[1..]);
    }
  }

  /** Sanitising twice is sanitising once. */
  lemma {:induction false} SanitizeIdempotent(text: JsValue)
    ensures SanitizeXmlText(JString(SanitizeXmlText(text))) == SanitizeXmlText(text)
  {
    NoApostropheUnchanged(SanitizeXmlText(text));
  }

  // ---------------------------------------------------------------------
  // analyzeRepetitions: specification

  function Ids(qs: seq<PageQuestion>): (r: seq<int>)
    ensures |r| == |qs|
  {
    seq(|qs|, i requires 0 <= i < |qs| => qs[i].id)
  }

  /** The distinct ids of `qs`. */
  function IdSet(qs: seq<PageQuestion>): set<int>
  {
    set x | x in Ids(qs)
  }

  function Flatten(vs: seq<seq<PageQuestion>>): seq<PageQuestion>
  {
    if vs == [] then [] else Flatten(vs[..|vs| - 1]) + vs[|vs| - 1]
  }

  /** The distinct elements of `xs` in order of first occurrence: the
      iteration order of a JavaScript Set or Map filled from `xs`. */
  function Uniq(xs: seq<int>): (r: seq<int>)
    ensures forall x :: x in r <==> x in xs
    ensures forall a, b :: 0 <= a < b < |r| ==> r[a] != r[b]
  {
    if xs == [] then []
    else
      var init := xs[..|xs| - 1];
      var x := xs[|xs| - 1];
      assert xs == init + [x];
      if x in init then Uniq(init) else Uniq(init) + [x]
  }

  /** The number of versions that contain `id`, however often each does. */
  function VersionCount(vs: seq<seq<PageQuestion>>, id: int): (n: nat)
    ensures n <= |vs|
  {
    if vs == [] then 0
    else VersionCount(vs[..|vs| - 1], id) + (if id in Ids(vs[|vs| - 1]) then 1 else 0)
  }

  /** The first question with `id`. */
  function FirstWithId(qs: seq<PageQuestion>, id: int): (r: Option<PageQuestion>)
    ensures r.Some? ==> r.value.id == id && r.value in qs
    ensures r.None? <==> id !in Ids(qs)
  {
    if qs == [] then None
    else
      var init := qs[..|qs| - 1];
      var last := qs[|qs| - 1];
      var first := FirstWithId(init, id);
      assert Ids(qs) == Ids(init) + [last.id];
      if first.Some? then first else if last.id == id then Some(last) else None
  }

  /** `{ ...question, count }`. */
  datatype Repeated = Repeated(question: PageQuestion, count: nat)

  /** The entries for the ids of `order` that occur in two versions or more. */
  function Select(vs: seq<seq<PageQuestion>>, order: seq<int>): seq<Repeated>
  {
    if order == [] then []
    else
      var id := order[|order| - 1];
      Select(vs, order[..|order| - 1])
      + (if VersionCount(vs, id) > 1 then
           match FirstWithId(Flatten(vs), id)
           case Some(q) => [Repeated(q, VersionCount(vs, id))]
           case None => []
         else [])
  }

  /** The repeated questions, in the order their ids first occur. */
  function Repetitions(vs: seq<seq<PageQuestion>>): seq<Repeated>
  {
    Select(vs, Uniq(Ids(Flatten(vs))))
  }

  // ---------------------------------------------------------------------
  // analyzeRepetitions: the loops

  /** `None` stands for a missing (null or undefined) list of versions. */
  method AnalyzeRepetitions(versions: Option<seq<seq<PageQuestion>>>)
    returns (repeated: seq<Repeated>, totalUnique: nat)
    ensures versions.None? || |versions.value| <= 1 ==> repeated == [] && totalUnique == 0
    ensures versions.Some? && |versions.value| > 1 ==>
              repeated == Repetitions(versions.value)
              && totalUnique == |IdSet(Flatten(versions.value))|
  {
    if versions.None? || |versions.value| <= 1 {
      return [], 0;
    }
    var vs := versions.value;
    var counts, order, details, unique := CountVersions(vs);
    repeated := CollectRepeated(vs, counts, order, details);
    totalUnique := |unique|;
  }

  /** The `versions.forEach` loop: per-id version counts in first-occurrence
      order, the first question seen with each id, and the set of all ids. */
  method CountVersions(vs: seq<seq<PageQuestion>>)
    returns (counts: map<int, nat>, order: seq<int>, details: map<int, PageQuestion>, unique: set<int>)
    ensures order == Uniq(Ids(Flatten(vs)))
    ensures forall id :: id in counts <==> id in order
    ensures forall id :: id in counts ==> counts[id] == VersionCount(vs, id)
    ensures forall id :: id in details <==> id in Ids(Flatten(vs))
    ensures forall id :: id in details ==> FirstWithId(Flatten(vs), id) == Some(details[id])
    ensures unique == IdSet(Flatten(vs))
  {
    counts, order, details, unique := map[], [], map[], {};
    var i := 0;
    while i < |vs|
      invariant 0 <= i <= |vs|
      invariant order == Uniq(Ids(Flatten(vs[..i])))
      invariant forall id :: id in counts <==> id in order
      invariant forall id :: id in counts ==> counts[id] == VersionCount(vs[..i], id)
      invariant forall id :: id in details <==> id in Ids(Flatten(vs[..i]))
      invariant forall id :: id in details ==> FirstWithId(Flatten(vs[..i]), id) == Some(details[id])
      invariant unique == IdSet(Flatten(vs[..i]))
    {
      ghost var seen := Flatten(vs[..i]);
      assert seen + [] == seen;
      var inVersion;
      inVersion, details, unique := ScanVersion(seen, vs[i], details, unique);
      counts, order := CountVersion(vs[..i], vs[i], inVersion, counts, order);
      assert vs[..i + 1] == vs[..i] + [vs[i]];
      assert vs[..i + 1][..i] == vs[..i];
      assert Flatten(vs[..i + 1]) == seen + vs[i];
      i := i + 1;
    }
    assert vs[..i] == vs;
  }

  /** The `version.forEach` loop: the distinct ids of one version, and the
      details map and id set extended by its questions. */
  method ScanVersion(ghost seen: seq<PageQuestion>, version: seq<PageQuestion>,
                     details0: map<int, PageQuestion>, unique0: set<int>)
    returns (inVersion: seq<int>, details: map<int, PageQuestion>, unique: set<int>)
    requires Scanned([], details0, unique0, seen, [])
    ensures Scanned(inVersion, details, unique, seen, version)
  {
    inVersion, details, unique := [], details0, unique0;
    var j := 0;
    assert version[..0] == [];
    while j < |version|
      invariant 0 <= j <= |version|
      invariant Scanned(inVersion, details, unique, seen, version[..j])
    {
      var q := version[j];
      assert version[..j + 1] == version[..j] + [q];
      ScanStep(inVersion, details, unique, seen, version[..j], q);
      // Adding to a Set that already holds the id changes nothing.
      inVersion, details, unique := if q.id in inVersion then inVersion else inVersion + [q.id],
                                    if q.id in details then details else details[q.id := q],
                                    unique + {q.id};
      j := j + 1;
    }
    assert version[..j] == version;
  }

  /** The state of the question loop after the questions `prefix` of a
      version, `seen` being the questions of the earlier versions. */
  ghost predicate Scanned(inVersion: seq<int>, details: map<int, PageQuestion>, unique: set<int>,
                          seen: seq<PageQuestion>, prefix: seq<PageQuestion>)
  {
    && inVersion == Uniq(Ids(prefix))
    && (forall id :: id in details <==> id in Ids(seen + prefix))
    && (forall id :: id in details ==> FirstWithId(seen + prefix, id) == Some(details[id]))
    && unique == IdSet(seen + prefix)
  }

  lemma {:induction false} ScanStep(inVersion: seq<int>, details: map<int, PageQuestion>, unique: set<int>,
                                    seen: seq<PageQuestion>, prefix: seq<PageQuestion>, q: PageQuestion)
    requires Scanned(inVersion, details, unique, seen, prefix)
    ensures Scanned(if q.id in inVersion then inVersion else inVersion + [q.id],
                    if q.id in details then details else details[q.id := q],
                    unique + {q.id}, seen, prefix + [q])
  {
    var before := seen + prefix;
    assert seen + (prefix + [q]) == before + [q];
    IdsSnoc(prefix, q);
    IdsSnoc(before, q);
    UniqSnoc(Ids(prefix), q.id);
    DetailsStep(details, before, q);
    var nextIds := if q.id in inVersion then inVersion else inVersion + [q.id];
    assert nextIds == Uniq(Ids(prefix + [q]));
    assert unique + {q.id} == IdSet(seen + (prefix + [q]));
  }

  /** The first-question map after one more question. */
  lemma {:induction false} DetailsStep(details: map<int, PageQuestion>, qs: seq<PageQuestion>, q: PageQuestion)
    requires forall id :: id in details <==> id in Ids(qs)
    requires forall id :: id in details ==> FirstWithId(qs, id) == Some(details[id])
    ensures var next := if q.id in details then details else details[q.id := q];
            && (forall id :: id in next <==> id in Ids(qs + [q]))
            && (forall id :: id in next ==> FirstWithId(qs + [q], id) == Some(next[id]))
  {
    var next := if q.id in details then details else details[q.id := q];
    IdsSnoc(qs, q);
    forall id | id in next ensures FirstWithId(qs + [q], id) == Some(next[id]) {
      FirstWithIdSnoc(qs, q);
    }
  }

  /** The version counts and key order after the ids `extra` of the
      version being counted. */
  ghost predicate Tally(counts: map<int, nat>, order: seq<int>, done: seq<seq<PageQuestion>>, extra: seq<int>)
  {
    && order == Uniq(Ids(Flatten(done)) + extra)
    && (forall id :: id in counts <==> id in order)
    && (forall id :: id in counts ==> counts[id] == VersionCount(done, id) + (if id in extra then 1 else 0))
  }

  /** The `questionIdsInVersion.forEach` loop: one more version for each
      distinct id of the version, new ids appended to the key order. */
  method CountVersion(ghost done: seq<seq<PageQuestion>>, ghost version: seq<PageQuestion>, inVersion: seq<int>,
                      counts0: map<int, nat>, order0: seq<int>)
    returns (counts: map<int, nat>, order: seq<int>)
    requires inVersion == Uniq(Ids(version))
    requires order0 == Uniq(Ids(Flatten(done)))
    requires forall id :: id in counts0 <==> id in order0
    requires forall id :: id in counts0 ==> counts0[id] == VersionCount(done, id)
    ensures order == Uniq(Ids(Flatten(done + [version])))
    ensures forall id :: id in counts <==> id in order
    ensures forall id :: id in counts ==> counts[id] == VersionCount(done + [version], id)
  {
    assert Ids(Flatten(done)) + [] == Ids(Flatten(done));
    counts, order := TallyIds(done, inVersion, counts0, order0);
    TallyDone(counts, order, done, version);
  }

  /** The loop itself: `inVersion` holds each id once. */
  method TallyIds(ghost done: seq<seq<PageQuestion>>, inVersion: seq<int>,
                  counts0: map<int, nat>, order0: seq<int>)
    returns (counts: map<int, nat>, order: seq<int>)
    requires forall a, b :: 0 <= a < b < |inVersion| ==> inVersion[a] != inVersion[b]
    requires Tally(counts0, order0, done, [])
    ensures Tally(counts, order, done, inVersion)
  {
    counts, order := counts0, order0;
    ghost var seen: seq<int> := [];
    var k := 0;
    while k < |inVersion|
      invariant 0 <= k <= |inVersion|
      invariant seen == inVersion[..k]
      invariant Tally(counts, order, done, seen)
    {
      DistinctNotInPrefix(inVersion, k);
      counts, order := TallyOne(done, seen, inVersion[k], counts, order);
      seen := seen + [inVersion[k]];
      assert seen == inVersion[..k + 1];
      k := k + 1;
    }
    assert seen == inVersion;
  }

  /** One id of the version: its count goes up by one, starting from 1, and
      a Map keeps its keys in insertion order, so a new id goes last. */
  method TallyOne(ghost done: seq<seq<PageQuestion>>, ghost seen: seq<int>, id: int,
                  counts0: map<int, nat>, order0: seq<int>)
    returns (counts: map<int, nat>, order: seq<int>)
    requires Tally(counts0, order0, done, seen)
    requires id !in seen
    ensures Tally(counts, order, done, seen + [id])
  {
    TallyStep(counts0, order0, done, seen, id);
    counts := if id in counts0 then counts0[id := counts0[id] + 1] else counts0[id := 1];
    order := if id in order0 then order0 else order0 + [id];
  }

  /** An element of a list without repetitions is not among those before it. */
  lemma {:induction false} DistinctNotInPrefix(xs: seq<int>, k: int)
    requires forall a, b :: 0 <= a < b < |xs| ==> xs[a] != xs[b]
    requires 0 <= k < |xs|
    ensures xs[k] !in xs[..k]
  {
  }

  lemma {:induction false} TallyStep(counts: map<int, nat>, order: seq<int>, done: seq<seq<PageQuestion>>,
                                     extra: seq<int>, id: int)
    requires Tally(counts, order, done, extra)
    requires id !in extra
    ensures Tally(if id in counts then counts[id := counts[id] + 1] else counts[id := 1],
                  if id in order then order else order + [id], done, extra + [id])
  {
    var flat := Ids(Flatten(done));
    assert flat + (extra + [id]) == (flat + extra) + [id];
    UniqSnoc(flat + extra, id);
    if id !in counts {
      VersionCountAbsent(done, id);
    }
  }

  lemma {:induction false} TallyDone(counts: map<int, nat>, order: seq<int>, done: seq<seq<PageQuestion>>,
                                     version: seq<PageQuestion>)
    requires Tally(counts, order, done, Uniq(Ids(version)))
    ensures order == Uniq(Ids(Flatten(done + [version])))
    ensures forall id :: id in counts <==> id in order
    ensures forall id :: id in counts ==> counts[id] == VersionCount(done + [version], id)
  {
    UniqAppendUniq(Ids(Flatten(done)), Ids(version));
    FlattenIds(done, version);
    VersionCountSnoc(done, version);
  }

  /** The `questionCounts.forEach` loop over the ids in insertion order. */
  method CollectRepeated(vs: seq<seq<PageQuestion>>, counts: map<int, nat>, order: seq<int>,
                         details: map<int, PageQuestion>)
    returns (repeated: seq<Repeated>)
    requires order == Uniq(Ids(Flatten(vs)))
    requires forall id :: id in counts <==> id in order
    requires forall id :: id in counts ==> counts[id] == VersionCount(vs, id)
    requires forall id :: id in details <==> id in Ids(Flatten(vs))
    requires forall id :: id in details ==> FirstWithId(Flatten(vs), id) == Some(details[id])
    ensures repeated == Repetitions(vs)
  {
    repeated := [];
    var k := 0;
    while k < |order|
      invariant 0 <= k <= |order|
      invariant repeated == Select(vs, order[..k])
    {
      var id := order[k];
      assert order[..k + 1][..k] == order[..k];
      var count := counts[id];
      if count > 1 {
        repeated := repeated + [Repeated(details[id], count)];
      }
      k := k + 1;
    }
    assert order[..k] == order;
  }

  // ---------------------------------------------------------------------
  // Steps of the loops

  lemma {:induction false} IdsSnoc(qs: seq<PageQuestion>, q: PageQuestion)
    ensures Ids(qs + [q]) == Ids(qs) + [q.id]
    ensures IdSet(qs + [q]) == IdSet(qs) + {q.id}
  {
    assert Ids(qs + [q]) == Ids(qs) + [q.id];
  }

  lemma {:induction false} IdsConcat(a: seq<PageQuestion>, b: seq<PageQuestion>)
    ensures Ids(a + b) == Ids(a) + Ids(b)
  {
    assert Ids(a + b) == Ids(a) + Ids(b);
  }

  lemma {:induction false} UniqSnoc(xs: seq<int>, x: int)
    ensures Uniq(xs + [x]) == if x in xs then Uniq(xs) else Uniq(xs) + [x]
  {
    assert (xs + [x])[..|xs|] == xs;
  }

  lemma {:induction false} FirstWithIdSnoc(qs: seq<PageQuestion>, q: PageQuestion)
    ensures forall id :: FirstWithId(qs + [q], id)
                         == if FirstWithId(qs, id).Some? then FirstWithId(qs, id)
                            else if q.id == id then Some(q) else None
  {
    assert (qs + [q])[..|qs|] == qs;
  }

  lemma {:induction false} FlattenIds(done: seq<seq<PageQuestion>>, version: seq<PageQuestion>)
    ensures Ids(Flatten(done + [version])) == Ids(Flatten(done)) + Ids(version)
  {
    assert (done + [version])[..|done|] == done;
    IdsConcat(Flatten(done), version);
  }

  lemma {:induction false} VersionCountSnoc(done: seq<seq<PageQuestion>>, version: seq<PageQuestion>)
    ensures forall id :: VersionCount(done + [version], id)
                         == VersionCount(done, id) + (if id in Ids(version) then 1 else 0)
  {
    assert (done + [version])[..|done|] == done;
  }

  /** An id that occurs in no version is counted in none. */
  lemma {:induction false} VersionCountAbsent(vs: seq<seq<PageQuestion>>, id: int)
    requires id !in Ids(Flatten(vs))
    ensures VersionCount(vs, id) == 0
  {
    if vs != [] {
      var init := vs[..|vs| - 1];
      FlattenIds(init, vs[|vs| - 1]);
      assert vs == init + [vs[|vs| - 1]];
      VersionCountAbsent(init, id);
    }
  }

  /** Deduplicating a suffix first does not change the first-occurrence order. */
  lemma {:induction false} UniqAppendUniq(xs: seq<int>, ys: seq<int>)
    ensures Uniq(xs + Uniq(ys)) == Uniq(xs + ys)
  {
    if ys == [] {
      assert xs + [] == xs;
    } else {
      var init := ys[..|ys| - 1];
      var y := ys[|ys| - 1];
      assert ys == init + [y];
      UniqAppendUniq(xs, init);
      UniqSnoc(init, y);
      assert xs + ys == (xs + init) + [y];
      UniqSnoc(xs + init, y);
      if y !in init {
        assert xs + Uniq(ys) == (xs + Uniq(init)) + [y];
        UniqSnoc(xs + Uniq(init), y);
      }
    }
  }

  // ---------------------------------------------------------------------
  // What the repetition analysis reports

  /** An id counted in some version occurs in the flattened versions. */
  lemma {:induction false} VersionCountPresent(vs: seq<seq<PageQuestion>>, id: int)
    requires VersionCount(vs, id) > 0
    ensures id in Ids(Flatten(vs))
  {
    if id !in Ids(Flatten(vs)) {
      VersionCountAbsent(vs, id);
    }
  }

  lemma {:induction false} SelectFacts(vs: seq<seq<PageQuestion>>, order: seq<int>)
    ensures |Select(vs, order)| <= |order|
    ensures forall k :: 0 <= k < |Select(vs, order)| ==>
              var r := Select(vs, order)[k];
              && r.question.id in order
              && r.count == VersionCount(vs, r.question.id)
              && 2 <= r.count <= |vs|
              && FirstWithId(Flatten(vs), r.question.id) == Some(r.question)
  {
    if order != [] {
      var init := order[..|order| - 1];
      SelectFacts(vs, init);
      assert order == init + [order[|order| - 1]];
    }
  }

  lemma {:induction false} SelectDistinct(vs: seq<seq<PageQuestion>>, order: seq<int>)
    requires forall a, b :: 0 <= a < b < |order| ==> order[a] != order[b]
    ensures forall a, b :: 0 <= a < b < |Select(vs, order)| ==>
              Select(vs, order)[a].question.id != Select(vs, order)[b].question.id
  {
    if order != [] {
      var init := order[..|order| - 1];
      var id := order[|order| - 1];
      assert forall a, b :: 0 <= a < b < |init| ==> init[a] != init[b] by {
        forall a, b | 0 <= a < b < |init| ensures init[a] != init[b] {
          assert init[a] == order[a] && init[b] == order[b];
        }
      }
      SelectDistinct(vs, init);
      SelectFacts(vs, init);
      assert id !in init by {
        forall a | 0 <= a < |init| ensures init[a] != id {
          assert init[a] == order[a];
        }
      }
    }
  }

  lemma {:induction false} SelectCovers(vs: seq<seq<PageQuestion>>, order: seq<int>, id: int)
    requires id in order && VersionCount(vs, id) >= 2
    ensures exists k :: 0 <= k < |Select(vs, order)| && Select(vs, order)[k].question.id == id
  {
    var init := order[..|order| - 1];
    var last := order[|order| - 1];
    var s := Select(vs, order);
    if id == last {
      VersionCountPresent(vs, id);
      assert s[|s| - 1].question.id == id;
    } else {
      assert order == init + [last];
      SelectCovers(vs, init, id);
      var k :| 0 <= k < |Select(vs, init)| && Select(vs, init)[k].question.id == id;
      assert s[k] == Select(vs, init)[k];
    }
  }

  /** The distinct elements of a list are as many as its set of elements. */
  lemma {:induction false} UniqCard(xs: seq<int>)
    ensures |Uniq(xs)| == |set x | x in xs|
  {
    if xs != [] {
      var init := xs[..|xs| - 1];
      var x := xs[|xs| - 1];
      assert xs == init + [x];
      UniqCard(init);
      UniqSnoc(init, x);
      var before := set y | y in init;
      var after := set y | y in xs;
      if x in init {
        assert after == before;
      } else {
        assert after == before + {x} && x !in before;
      }
    }
  }

  /** An id is reported iff it occurs in two versions or more; each entry
      carries the number of versions holding its id (at most the number of
      versions) and the first question seen with it; no id is reported
      twice, and there are at most as many entries as distinct ids. */
  lemma {:induction false} RepetitionsReport(vs: seq<seq<PageQuestion>>)
    ensures forall id :: (exists k :: 0 <= k < |Repetitions(vs)| && Repetitions(vs)[k].question.id == id)
                         <==> VersionCount(vs, id) >= 2
    ensures forall k :: 0 <= k < |Repetitions(vs)| ==>
              var r := Repetitions(vs)[k];
              && r.count == VersionCount(vs, r.question.id)
              && 2 <= r.count <= |vs|
              && FirstWithId(Flatten(vs), r.question.id) == Some(r.question)
    ensures forall a, b :: 0 <= a < b < |Repetitions(vs)| ==>
              Repetitions(vs)[a].question.id != Repetitions(vs)[b].question.id
    ensures |Repetitions(vs)| <= |IdSet(Flatten(vs))|
  {
    var order := Uniq(Ids(Flatten(vs)));
    SelectFacts(vs, order);
    SelectDistinct(vs, order);
    UniqCard(Ids(Flatten(vs)));
    forall id | VersionCount(vs, id) >= 2
      ensures exists k :: 0 <= k < |Repetitions(vs)| && Repetitions(vs)[k].question.id == id
    {
      RepetitionsCover(vs, id);
    }
  }

  lemma {:induction false} RepetitionsCover(vs: seq<seq<PageQuestion>>, id: int)
    requires VersionCount(vs, id) >= 2
    ensures exists k :: 0 <= k < |Repetitions(vs)| && Repetitions(vs)[k].question.id == id
  {
    var order := Uniq(Ids(Flatten(vs)));
    VersionCountPresent(vs, id);
    assert id in order;
    SelectCovers(vs, order, id);
    var k :| 0 <= k < |Select(vs, order)| && Select(vs, order)[k].question.id == id;
    assert Repetitions(vs) == Select(vs, order);
    assert Repetitions(vs)[k].question.id == id;
  }

  // ---------------------------------------------------------------------
  // Subject and chapter selection

  /** The selected subject ids (as strings) and the points per subject;
      a points value is a number, `None` standing for NaN. */
  datatype Selection = Selection(matieres: seq<string>, points: map<string, Option<real>>)

  /** `list.filter(x => x !== id)`. */
  function Without(list: seq<string>, id: string): (r: seq<string>)
    ensures forall x :: x in r <==> x in list && x != id
  {
    if list == [] then []
    else (if list[0] == id then [] else [list[0]]) + Without(list[1..], id)
  }

  /** `list.includes(id) ? list.filter(x => x !== id) : [...list, id]`. */
  function Toggle(list: seq<string>, id: string): (r: seq<string>)
    ensures id in r <==> id !in list
    ensures forall x :: x != id ==> (x in r <==> x in list)
    ensures id !in list ==> r == list + [id]
  {
    if id in list then Without(list, id) else list + [id]
  }

  /** A number is truthy unless it is 0 or NaN; a missing key reads as
      undefined, which is falsy too. */
  predicate TruthyNumber(v: Option<real>)
  {
    v.Some? && v.value != 0.0
  }

  /** The points a newly selected subject starts with. */
  const DefaultPoints: real := 20.0

  function MatiereChange(sel: Selection, matiereId: int): (r: Selection)
    ensures var key := IntToString(matiereId);
            && r.matieres == Toggle(sel.matieres, key)
            && (key in r.matieres ==>
                  && key in r.points && TruthyNumber(r.points[key])
                  && (key in sel.points && TruthyNumber(sel.points[key]) ==> r.points[key] == sel.points[key])
                  && (!(key in sel.points && TruthyNumber(sel.points[key])) ==> r.points[key] == Some(DefaultPoints)))
            && (key !in r.matieres ==> key !in r.points)
            && forall k :: k != key ==> (k in r.points <==> k in sel.points)
                                        && (k in sel.points ==> r.points[k] == sel.points[k])
  {
    var key := IntToString(matiereId);
    var matieres := Toggle(sel.matieres, key);
    var points :=
      if key in matieres then
        if key in sel.points && TruthyNumber(sel.points[key]) then sel.points
        else sel.points[key := Some(DefaultPoints)]
      else sel.points - {key};
    Selection(matieres, points)
  }

  /** `{ ...points, [String(matiereId)]: Number(value) }`. */
  function PointsChange(points: map<string, Option<real>>, matiereId: int, value: Option<real>): (r: map<string, Option<real>>)
    ensures r.Keys == points.Keys + {IntToString(matiereId)}
    ensures r[IntToString(matiereId)] == value
    ensures forall k :: k in points && k != IntToString(matiereId) ==> r[k] == points[k]
  {
    points[IntToString(matiereId) := value]
  }

  function ChapitreChange(chapitres: seq<string>, chapitreId: int): (r: seq<string>)
  {
    Toggle(chapitres, IntToString(chapitreId))
  }

  /** The points map has exactly the selected subjects as keys, before and
      after any subject toggle, and after a points edit of a selected one. */
  ghost predicate PointsFollowSelection(sel: Selection)
  {
    forall k :: k in sel.points <==> k in sel.matieres
  }

  lemma {:induction false} MatiereChangeKeepsPoints(sel: Selection, matiereId: int)
    requires PointsFollowSelection(sel)
    ensures PointsFollowSelection(MatiereChange(sel, matiereId))
  {
  }

  lemma {:induction false} PointsChangeKeepsPoints(sel: Selection, matiereId: int, value: Option<real>)
    requires PointsFollowSelection(sel)
    requires IntToString(matiereId) in sel.matieres
    ensures PointsFollowSelection(Selection(sel.matieres, PointsChange(sel.points, matiereId, value)))
  {
  }

  /** The filter works element by element: it keeps the order and the
      repetitions of the other ids. */
  lemma {:induction false} WithoutConcat(a: seq<string>, b: seq<string>, id: string)
    ensures Without(a + b, id) == Without(a, id) + Without(b, id)
    decreases |a|
  {
    if a == [] {
      assert a + b == b;
    } else {
      assert (a + b)[0] == a[0];
      assert (a + b)[1..] == a[1..] + b;
      WithoutConcat(a[1..], b, id);
    }
  }

  /** The filter of no id, and of one id. */
  lemma {:induction false} WithoutSingle(x: string, id: string)
    ensures Without([], id) == []
    ensures Without([x], id) == if x == id then [] else [x]
  {
    assert [x][1..] == [];
  }


  /** Removing an id that was just appended gives back the list. */
  lemma {:induction false} WithoutAppended(list: seq<string>, id: string)
    requires id !in list
    ensures Without(list + [id], id) == list
  {
    if list == [] {
      assert [id][1..] == [];
    } else {
      assert (list + [id])[1..] == list[1..] + [id];
      WithoutAppended(list[1..], id);
    }
  }

  /** Toggling a chapter that was not selected twice restores the selection. */
  lemma {:induction false} ChapitreChangeTwice(chapitres: seq<string>, chapitreId: int)
    requires IntToString(chapitreId) !in chapitres
    ensures ChapitreChange(ChapitreChange(chapitres, chapitreId), chapitreId) == chapitres
  {
    WithoutAppended(chapitres, IntToString(chapitreId));
  }

  /** Selecting a subject that was not selected and deselecting it again
      restores the selection and drops its points entry. */
  lemma {:induction false} MatiereChangeTwice(sel: Selection, matiereId: int)
    requires IntToString(matiereId) !in sel.matieres
    ensures MatiereChange(MatiereChange(sel, matiereId), matiereId)
            == Selection(sel.matieres, sel.points - {IntToString(matiereId)})
  {
    var key := IntToString(matiereId);
    WithoutAppended(sel.matieres, key);
    var once := MatiereChange(sel, matiereId);
    var twice := MatiereChange(once, matiereId);
    assert twice.points == sel.points - {key};
  }
}
