/** What the generation route promises about its response, proved of the
    specification `Generate` that the route's method is shown to compute. */
module ExamProperties {
  import opened JsRuntime
  import opened Combination
  import opened ExamGeneration

  // ---------------------------------------------------------------------
  // The error responses

  /** 400 for missing input exactly when the subject list or the points map
      is empty; 404 exactly when the input is there and the query found no
      question, before any search. */
  lemma {:induction false} InputErrors(req: Request, pool: seq<Question>, shuffle: Shuffler)
    requires IsShuffler(shuffle)
    ensures Generate(req, pool, shuffle) == MissingInput <==> |req.matiereIds| == 0 || |req.pointsPerMatiere| == 0
    ensures Generate(req, pool, shuffle) == NoQuestions <==>
              |req.matiereIds| > 0 && |req.pointsPerMatiere| > 0 && |pool| == 0
    ensures StatusCode(Generate(req, pool, shuffle)) == 200 <==> Generate(req, pool, shuffle).Generated?
  {
  }

  /** Where a failed subject loop stopped: the position of the subject, its
      positive target and the search that found nothing. */
  lemma {:induction false} AssembleFailedAt(req: Request, pool: seq<Question>, shuffle: Shuffler, k: nat, m: nat)
    returns (j: nat)
    requires IsShuffler(shuffle)
    requires m <= |req.matiereIds|
    requires Assemble(req, pool, shuffle, k, m).Failed?
    ensures j < m
    ensures var f := Assemble(req, pool, shuffle, k, m);
            req.matiereIds[j] == f.matiereId
            && TargetOf(req.pointsPerMatiere, f.matiereId) == Some(f.target) && f.target > 0.0
            && Find(SubjectPool(pool, f.matiereId), f.target, {}, shuffle, [k, j]).None?
  {
    match Assemble(req, pool, shuffle, k, m - 1)
    case Failed(_, _) =>
      j := AssembleFailedAt(req, pool, shuffle, k, m - 1);
    case Built(_) =>
      j := m - 1;
  }

  /** The attempt at which the run aborted. */
  lemma {:induction false} RunAbortedAt(req: Request, pool: seq<Question>, shuffle: Shuffler, n: nat)
    returns (k: nat)
    requires IsShuffler(shuffle)
    requires RunAttempts(req, pool, shuffle, n).Aborted?
    ensures k < n
    ensures var a := RunAttempts(req, pool, shuffle, n);
            Assemble(req, pool, shuffle, k, |req.matiereIds|) == Failed(a.matiereId, a.target)
  {
    match RunAttempts(req, pool, shuffle, n - 1)
    case Aborted(_, _) =>
      k := RunAbortedAt(req, pool, shuffle, n - 1);
    case Candidates(_) =>
      k := n - 1;
  }

  /** A subject's questions are questions of the pool. */
  lemma {:induction false} SubjectPoolNonNegative(pool: seq<Question>, id: int)
    requires NonNegative(pool)
    ensures NonNegative(SubjectPool(pool, id))
  {
    forall q | q in SubjectPool(pool, id) ensures q.points >= 0.0 {
      assert q in pool;
    }
  }

  /** The "Impossible" answer names one of the request's subjects and that
      subject's positive target, and (with non-negative points) it is given
      only when no combination of that subject's questions reaches the
      target, whatever order the shuffles produced. */
  lemma {:induction false} UnsatisfiableResponse(req: Request, pool: seq<Question>, shuffle: Shuffler)
    requires IsShuffler(shuffle)
    requires Generate(req, pool, shuffle).Unsatisfiable?
    ensures var r := Generate(req, pool, shuffle);
            r.matiereId in req.matiereIds
            && TargetOf(req.pointsPerMatiere, r.matiereId) == Some(r.target) && r.target > 0.0
    ensures var r := Generate(req, pool, shuffle);
            NonNegative(pool) ==> forall c :: !IsCombination(c, SubjectPool(pool, r.matiereId), r.target, {})
  {
    var r := Generate(req, pool, shuffle);
    var n := Attempts(RequestedVersions(req.numVersions));
    assert RunAttempts(req, pool, shuffle, n) == Aborted(r.matiereId, r.target);
    var k := RunAbortedAt(req, pool, shuffle, n);
    var j := AssembleFailedAt(req, pool, shuffle, k, |req.matiereIds|);
    if NonNegative(pool) {
      SubjectPoolNonNegative(pool, r.matiereId);
      FindFailsOnlyWhenUnsatisfiable(SubjectPool(pool, r.matiereId), r.target, {}, shuffle, [k, j]);
    }
  }

  // ---------------------------------------------------------------------
  // The versions

  /** Each block of a built subject loop is a combination for its subject:
      one block per subject with a positive target, in order. */
  lemma {:induction false} AssembleBuiltFits(req: Request, pool: seq<Question>, shuffle: Shuffler, k: nat, m: nat)
    requires IsShuffler(shuffle)
    requires m <= |req.matiereIds|
    requires Assemble(req, pool, shuffle, k, m).Built?
    ensures BlocksFit(Assemble(req, pool, shuffle, k, m).blocks, ActiveSubjects(req, m), pool)
  {
    if m > 0 {
      AssembleBuiltFits(req, pool, shuffle, k, m - 1);
      var before := Assemble(req, pool, shuffle, k, m - 1).blocks;
      var id := req.matiereIds[m - 1];
      var target := TargetOf(req.pointsPerMatiere, id);
      if IsActive(target) {
        FindSound(SubjectPool(pool, id), target.value, {}, shuffle, [k, m - 1]);
        var c := Find(SubjectPool(pool, id), target.value, {}, shuffle, [k, m - 1]).value;
        BlocksFitAppend(before, ActiveSubjects(req, m - 1), pool, c, id, target.value);
      }
    }
  }

  lemma {:induction false} BlocksFitAppend(blocks: seq<seq<Question>>, subjects: seq<(int, real)>, pool: seq<Question>,
                                           c: seq<Question>, id: int, target: real)
    requires BlocksFit(blocks, subjects, pool)
    requires IsCombination(c, SubjectPool(pool, id), target, {})
    ensures BlocksFit(blocks + [c], subjects + [(id, target)], pool)
  {
    var b := blocks + [c];
    var s := subjects + [(id, target)];
    forall j | 0 <= j < |b|
      ensures IsCombination(b[j], SubjectPool(pool, s[j].0), s[j].1, {})
    {
      if j < |blocks| {
        assert b[j] == blocks[j] && s[j] == subjects[j];
      }
    }
  }

  /** Each subject with a positive target was found a combination in every
      built attempt. */
  lemma {:induction false} AssembleBuiltFound(req: Request, pool: seq<Question>, shuffle: Shuffler, k: nat, m: nat, j: nat)
    requires IsShuffler(shuffle)
    requires j < m <= |req.matiereIds|
    requires Assemble(req, pool, shuffle, k, m).Built?
    requires IsActive(TargetOf(req.pointsPerMatiere, req.matiereIds[j]))
    ensures Find(SubjectPool(pool, req.matiereIds[j]), TargetOf(req.pointsPerMatiere, req.matiereIds[j]).value,
                 {}, shuffle, [k, j]).Some?
  {
    if j < m - 1 {
      AssembleBuiltFound(req, pool, shuffle, k, m - 1, j);
    }
  }

  /** The candidates after `n` attempts: one version per attempt, each of
      them well formed. */
  lemma {:induction false} RunCandidates(req: Request, pool: seq<Question>, shuffle: Shuffler, n: nat)
    requires IsShuffler(shuffle)
    requires RunAttempts(req, pool, shuffle, n).Candidates?
    ensures var attempts := RunAttempts(req, pool, shuffle, n).attempts;
            |attempts| == n && forall v :: v in attempts ==> IsVersion(v, req, pool)
  {
    if n > 0 {
      RunCandidates(req, pool, shuffle, n - 1);
      var before := RunAttempts(req, pool, shuffle, n - 1).attempts;
      var blocks := Assemble(req, pool, shuffle, n - 1, |req.matiereIds|).blocks;
      AssembleBuiltFits(req, pool, shuffle, n - 1, |req.matiereIds|);
      assert IsVersion(Concat(blocks), req, pool);
      assert forall v :: v in before + [Concat(blocks)] ==> v in before || v == Concat(blocks);
    }
  }

  /** An abort at some attempt is the response whatever the later attempts
      would have been; so a run that ends with candidates had candidates
      after each of its first attempts. */
  lemma {:induction false} RunCandidatesEarlier(req: Request, pool: seq<Question>, shuffle: Shuffler, i: nat, n: nat)
    requires IsShuffler(shuffle)
    requires i <= n
    requires RunAttempts(req, pool, shuffle, n).Candidates?
    ensures RunAttempts(req, pool, shuffle, i).Candidates?
  {
    if RunAttempts(req, pool, shuffle, i).Aborted? {
      RunAbortStays(req, pool, shuffle, i, n);
    }
  }

  // ---------------------------------------------------------------------
  // The uniqueness filter

  /** The filter keeps no more than it was given, and only non-empty
      attempts. */
  lemma {:induction false} KeepUniqueFrom(attempts: seq<seq<Question>>)
    ensures |KeepUnique(attempts)| <= |attempts|
    ensures forall v :: v in KeepUnique(attempts) ==> v in attempts && v != []
  {
    if attempts != [] {
      var init := attempts[..|attempts| - 1];
      var x := attempts[|attempts| - 1];
      KeepUniqueFrom(init);
      assert forall v :: v in init ==> v in attempts;
      assert forall v :: v in KeepUnique(init) + [x] ==> v in KeepUnique(init) || v == x;
    }
  }

  /** No two kept versions share a signature. */
  lemma {:induction false} KeepUniqueDistinct(attempts: seq<seq<Question>>)
    ensures forall a, b :: 0 <= a < b < |KeepUnique(attempts)| ==>
              Signature(KeepUnique(attempts)[a]) != Signature(KeepUnique(attempts)[b])
  {
    if attempts != [] {
      var init := attempts[..|attempts| - 1];
      var x := attempts[|attempts| - 1];
      KeepUniqueDistinct(init);
      var before := KeepUnique(init);
      if x != [] && Signature(x) !in Signatures(before) {
        var kept := before + [x];
        forall a, b | 0 <= a < b < |kept| ensures Signature(kept[a]) != Signature(kept[b]) {
          if b == |before| {
            assert kept[a] in before;
          } else {
            assert kept[a] == before[a] && kept[b] == before[b];
          }
        }
      }
    }
  }

  /** Every non-empty attempt's signature is among the kept ones. */
  lemma {:induction false} KeepUniqueCovers(attempts: seq<seq<Question>>)
    ensures forall v :: v in attempts && v != [] ==> Signature(v) in Signatures(KeepUnique(attempts))
  {
    if attempts != [] {
      var init := attempts[..|attempts| - 1];
      var x := attempts[|attempts| - 1];
      KeepUniqueCovers(init);
      var before := KeepUnique(init);
      assert attempts == init + [x];
      if x != [] && Signature(x) !in Signatures(before) {
        SignaturesAppend(before, x);
      }
      forall v | v in attempts && v != [] ensures Signature(v) in Signatures(KeepUnique(attempts)) {
        if v != x {
          assert v in init;
        }
      }
    }
  }

  /** The first non-empty attempt with a signature is an attempt with it. */
  lemma {:induction false} FirstWithSignatureFound(attempts: seq<seq<Question>>, s: multiset<int>)
    requires FirstWithSignature(attempts, s).Some?
    ensures var w := FirstWithSignature(attempts, s).value;
            w in attempts && w != [] && Signature(w) == s
  {
    var init := attempts[..|attempts| - 1];
    if FirstWithSignature(init, s).Some? {
      FirstWithSignatureFound(init, s);
      assert forall v :: v in init ==> v in attempts;
    }
  }

  /** The first occurrence wins: each kept version is the first non-empty
      attempt with its signature. */
  lemma {:induction false} KeepUniqueKeepsFirst(attempts: seq<seq<Question>>)
    ensures forall v :: v in KeepUnique(attempts) ==> FirstWithSignature(attempts, Signature(v)) == Some(v)
  {
    if attempts != [] {
      var init := attempts[..|attempts| - 1];
      var x := attempts[|attempts| - 1];
      KeepUniqueKeepsFirst(init);
      var before := KeepUnique(init);
      if x != [] && Signature(x) !in Signatures(before) {
        if FirstWithSignature(init, Signature(x)).Some? {
          FirstWithSignatureFound(init, Signature(x));
          KeepUniqueCovers(init);
          assert false;
        }
        assert forall v :: v in before + [x] ==> v in before || v == x;
      }
    }
  }

  // ---------------------------------------------------------------------
  // The 200 response

  /** A 200 response: at most `Number(numVersions) || 1` versions (none for
      a negative count), the warning exactly when fewer were kept than
      requested, each version non-empty and made of one combination per
      subject with a positive target, no two with the same signature, and
      each the first attempt that produced its signature. */
  lemma {:induction false} GeneratedResponse(req: Request, pool: seq<Question>, shuffle: Shuffler)
    requires IsShuffler(shuffle)
    requires Generate(req, pool, shuffle).Generated?
    ensures var r := Generate(req, pool, shuffle);
            var requested := RequestedVersions(req.numVersions);
            |r.versions| <= Attempts(requested)
            && (r.warning <==> |r.versions| < requested)
    ensures var r := Generate(req, pool, shuffle);
            forall v :: v in r.versions ==> v != [] && IsVersion(v, req, pool)
    ensures var r := Generate(req, pool, shuffle);
            forall a, b :: 0 <= a < b < |r.versions| ==> Signature(r.versions[a]) != Signature(r.versions[b])
    ensures var r := Generate(req, pool, shuffle);
            var attempts := RunAttempts(req, pool, shuffle, Attempts(RequestedVersions(req.numVersions))).attempts;
            forall v :: v in r.versions ==> FirstWithSignature(attempts, Signature(v)) == Some(v)
  {
    var n := Attempts(RequestedVersions(req.numVersions));
    var attempts := RunAttempts(req, pool, shuffle, n).attempts;
    assert Generate(req, pool, shuffle).versions == KeepUnique(attempts);
    RunCandidates(req, pool, shuffle, n);
    KeepUniqueFrom(attempts);
    KeepUniqueDistinct(attempts);
    KeepUniqueKeepsFirst(attempts);
  }

  /** A 200 response for at least one requested version means that every
      subject with a positive target has a combination of its questions. */
  lemma {:induction false} GeneratedCoversSubjects(req: Request, pool: seq<Question>, shuffle: Shuffler, j: nat)
    requires IsShuffler(shuffle)
    requires Generate(req, pool, shuffle).Generated?
    requires RequestedVersions(req.numVersions) >= 1
    requires j < |req.matiereIds| && IsActive(TargetOf(req.pointsPerMatiere, req.matiereIds[j]))
    ensures exists c :: IsCombination(c, SubjectPool(pool, req.matiereIds[j]),
                                      TargetOf(req.pointsPerMatiere, req.matiereIds[j]).value, {})
  {
    var n := Attempts(RequestedVersions(req.numVersions));
    RunCandidatesEarlier(req, pool, shuffle, 1, n);
    assert Assemble(req, pool, shuffle, 0, |req.matiereIds|).Built?;
    var id := req.matiereIds[j];
    var t := TargetOf(req.pointsPerMatiere, id).value;
    AssembleBuiltFound(req, pool, shuffle, 0, |req.matiereIds|, j);
    FindSound(SubjectPool(pool, id), t, {}, shuffle, [0, j]);
  }

  // ---------------------------------------------------------------------
  // Signatures

  lemma {:induction false} IdListConcat(a: seq<Question>, b: seq<Question>)
    ensures IdList(a + b) == IdList(a) + IdList(b)
  {
    if a != [] {
      assert (a + b)[1..] == a[1..] + b;
      IdListConcat(a[1..], b);
    } else {
      assert a + b == b;
    }
  }

  /** The signature depends on the multiset of questions only, not on the
      order in which the subjects and the shuffles put them. */
  lemma {:induction false} SignatureIgnoresOrder(v: seq<Question>, w: seq<Question>)
    requires multiset(v) == multiset(w)
    ensures Signature(v) == Signature(w)
    decreases |v|
  {
    if v != [] {
      var x := v[0];
      assert x in multiset(w);
      var k :| 0 <= k < |w| && w[k] == x;
      var rest := w[..k] + w[k + 1..];
      SignatureWithout(w, k);
      assert v == [x] + v[1..];
      assert multiset(v) == multiset(v[1..]) + multiset{x};
      MultisetCancel(multiset(v[1..]), multiset(rest), x);
      SignatureIgnoresOrder(v[1..], rest);
    } else {
      assert w == [];
    }
  }

  /** Taking one question out of a version takes its id out of the
      signature. */
  lemma {:induction false} SignatureWithout(w: seq<Question>, k: nat)
    requires k < |w|
    ensures multiset(w) == multiset(w[..k] + w[k + 1..]) + multiset{w[k]}
    ensures Signature(w) == Signature(w[..k] + w[k + 1..]) + multiset{w[k].id}
  {
    var x := w[k];
    assert w == w[..k] + [x] + w[k + 1..];
    IdListConcat(w[..k] + [x], w[k + 1..]);
    IdListConcat(w[..k], [x]);
    IdListConcat(w[..k], w[k + 1..]);
    assert IdList([x]) == [x.id];
  }

  lemma {:induction false} MultisetCancel(a: multiset<Question>, b: multiset<Question>, x: Question)
    requires a + multiset{x} == b + multiset{x}
    ensures a == b
  {
    forall y ensures a[y] == b[y] {
      assert (a + multiset{x})[y] == (b + multiset{x})[y];
    }
  }

  // ---------------------------------------------------------------------
  // No question twice in a version

  /** Database rows: a question id names one question. */
  ghost predicate KeyedById(pool: seq<Question>)
  {
    forall x, y :: x in pool && y in pool && x.id == y.id ==> x == y
  }

  ghost predicate DistinctSubjects(subjects: seq<(int, real)>)
  {
    forall a, b :: 0 <= a < b < |subjects| ==> subjects[a].0 != subjects[b].0
  }

  /** The active subjects are drawn from the request's ids, in order, so
      distinct ids give distinct subjects. */
  lemma {:induction false} ActiveSubjectsDistinct(req: Request, m: nat)
    requires m <= |req.matiereIds|
    requires forall a, b :: 0 <= a < b < |req.matiereIds| ==> req.matiereIds[a] != req.matiereIds[b]
    ensures forall j :: 0 <= j < |ActiveSubjects(req, m)| ==> ActiveSubjects(req, m)[j].0 in req.matiereIds[..m]
    ensures DistinctSubjects(ActiveSubjects(req, m))
  {
    if m > 0 {
      ActiveSubjectsDistinct(req, m - 1);
      var before := ActiveSubjects(req, m - 1);
      var id := req.matiereIds[m - 1];
      assert req.matiereIds[..m] == req.matiereIds[..m - 1] + [id];
      assert id !in req.matiereIds[..m - 1] by {
        var prefix := req.matiereIds[..m - 1];
        forall a | 0 <= a < |prefix| ensures prefix[a] != id {
          assert prefix[a] == req.matiereIds[a];
        }
      }
      var after := ActiveSubjects(req, m);
      forall j | 0 <= j < |after| ensures after[j].0 in req.matiereIds[..m] {
        if j < |before| {
          assert after[j] == before[j];
        }
      }
      forall a, b | 0 <= a < b < |after| ensures after[a].0 != after[b].0 {
        if b < |before| {
          assert after[a] == before[a] && after[b] == before[b];
        } else {
          assert after[a] == before[a];
        }
      }
    }
  }

  /** A question of a combination for a subject is a question of the pool
      with that subject. */
  lemma {:induction false} CombinationMember(c: seq<Question>, pool: seq<Question>, id: int, target: real, x: Question)
    requires IsCombination(c, SubjectPool(pool, id), target, {})
    requires x in c
    ensures x in pool && x.matiere == id
  {
    assert multiset(c)[x] > 0;
    assert x in multiset(SubjectPool(pool, id));
  }

  lemma {:induction false} ConcatMember(blocks: seq<seq<Question>>, x: Question) returns (j: nat)
    requires x in Concat(blocks)
    ensures j < |blocks| && x in blocks[j]
  {
    var init := blocks[..|blocks| - 1];
    if x in Concat(init) {
      j := ConcatMember(init, x);
      assert blocks[j] == init[j];
    } else {
      j := |blocks| - 1;
    }
  }

  lemma {:induction false} DistinctIdsConcat(a: seq<Question>, b: seq<Question>)
    requires DistinctIds(a) && DistinctIds(b)
    requires forall x, y :: x in a && y in b ==> x.id != y.id
    ensures DistinctIds(a + b)
  {
    var c := a + b;
    forall i, j | 0 <= i < j < |c| ensures c[i].id != c[j].id {
      if j < |a| {
        assert c[i] == a[i] && c[j] == a[j];
      } else if i < |a| {
        assert c[i] == a[i] && c[j] == b[j - |a|];
      } else {
        assert c[i] == b[i - |a|] && c[j] == b[j - |a|];
      }
    }
  }

  /** Blocks for distinct subjects, drawn from a pool keyed by id, never
      share a question. */
  lemma {:induction false} ConcatDistinct(blocks: seq<seq<Question>>, subjects: seq<(int, real)>, pool: seq<Question>)
    requires BlocksFit(blocks, subjects, pool)
    requires DistinctSubjects(subjects)
    requires KeyedById(pool)
    ensures DistinctIds(Concat(blocks))
  {
    var n := |blocks|;
    if n > 0 {
      var init := blocks[..n - 1];
      var last := blocks[n - 1];
      var front := subjects[..n - 1];
      assert BlocksFit(init, front, pool) by {
        forall j | 0 <= j < n - 1
          ensures IsCombination(init[j], SubjectPool(pool, front[j].0), front[j].1, {})
        {
          assert init[j] == blocks[j] && front[j] == subjects[j];
        }
      }
      ConcatDistinct(init, front, pool);
      forall x, y | x in Concat(init) && y in last ensures x.id != y.id {
        var j := ConcatMember(init, x);
        assert init[j] == blocks[j];
        CombinationMember(blocks[j], pool, subjects[j].0, subjects[j].1, x);
        CombinationMember(last, pool, subjects[n - 1].0, subjects[n - 1].1, y);
      }
      DistinctIdsConcat(Concat(init), last);
    }
  }

  /** With distinct subject ids in the request and a pool keyed by question
      id (as rows of the questions table are), no question appears twice in
      a version. */
  lemma {:induction false} VersionHasNoRepeats(req: Request, pool: seq<Question>, v: seq<Question>)
    requires IsVersion(v, req, pool)
    requires forall a, b :: 0 <= a < b < |req.matiereIds| ==> req.matiereIds[a] != req.matiereIds[b]
    requires KeyedById(pool)
    ensures DistinctIds(v)
  {
    var subjects := ActiveSubjects(req, |req.matiereIds|);
    var blocks :| v == Concat(blocks) && BlocksFit(blocks, subjects, pool);
    ActiveSubjectsDistinct(req, |req.matiereIds|);
    ConcatDistinct(blocks, subjects, pool);
  }
}
