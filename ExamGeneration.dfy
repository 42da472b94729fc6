/** The exam-version generator behind POST /api/generate-exam-versions
    (backend/server.js): for each requested version, walk the subjects, find a
    combination for every subject with a positive target, abort the request
    on the first subject that has none, and keep each version whose signature
    has not been seen. The question pool is the rows the database query
    returned, after normalisation, with numeric points. */
module ExamGeneration {
  import opened JsRuntime
  import opened Combination

  /** The request body. `pointsPerMatiere` holds `Number(value)` per subject
      id, None standing for NaN; `numVersions` is `Number(numVersions)`,
      None standing for NaN. A body field that is not an array or object is
      represented by an empty one, which the route treats the same way. */
  datatype Request = Request(matiereIds: seq<int>, pointsPerMatiere: map<int, Option<real>>, numVersions: Option<int>)

  datatype Response =
    | MissingInput                                       // 400: subjects or points missing
    | NoQuestions                                        // 404: the query found no question
    | Unsatisfiable(matiereId: int, target: real)        // 400: no combination for this subject
    | Generated(versions: seq<seq<Question>>, warning: bool)  // 200, with a warning when short

  function StatusCode(r: Response): int
  {
    match r
    case MissingInput => 400
    case NoQuestions => 404
    case Unsatisfiable(_, _) => 400
    case Generated(_, _) => 200
  }

  /** `Number(numVersions) || 1`: NaN and 0 become 1. */
  function RequestedVersions(numVersions: Option<int>): int
  {
    match numVersions
    case None => 1
    case Some(n) => if n == 0 then 1 else n
  }

  /** How many times the attempt loop runs. */
  function Attempts(requested: int): nat
  {
    if requested < 0 then 0 else requested
  }

  /** `Number(pointsPerMatiere[matiereId])`: a missing key reads as NaN. */
  function TargetOf(points: map<int, Option<real>>, id: int): Option<real>
  {
    if id in points then points[id] else None
  }

  /** A subject is searched unless `!targetPoints || targetPoints <= 0`. */
  predicate IsActive(target: Option<real>)
  {
    target.Some? && target.value > 0.0
  }

  /** `allAvailableQuestions.filter(q => q.id_matiere == matiereId)` */
  function SubjectPool(pool: seq<Question>, id: int): (r: seq<Question>)
    ensures forall q :: q in r <==> q in pool && q.matiere == id
    ensures multiset(r) <= multiset(pool)
  {
    if pool == [] then []
    else
      assert pool == [pool[0]] + pool[1..];
      (if pool[0].matiere == id then [pool[0]] else []) + SubjectPool(pool[1..], id)
  }

  /** The questions of several blocks, one after the other
      (`currentVersionQuestions.push(...combination)`). */
  function Concat(blocks: seq<seq<Question>>): seq<Question>
  {
    if blocks == [] then [] else Concat(blocks[..|blocks| - 1]) + blocks[|blocks| - 1]
  }

  // ---------------------------------------------------------------------
  // One version

  datatype Assembly = Built(blocks: seq<seq<Question>>) | Failed(matiereId: int, target: real)

  /** The subject loop of attempt `k` over the first `m` subject ids. The
      search for the subject at position `m` of attempt `k` starts from the
      shuffle path [k, m]. */
  function Assemble(req: Request, pool: seq<Question>, shuffle: Shuffler, k: nat, m: nat): Assembly
    requires IsShuffler(shuffle)
    requires m <= |req.matiereIds|
  {
    if m == 0 then Built([])
    else
      match Assemble(req, pool, shuffle, k, m - 1)
      case Failed(id, t) => Failed(id, t)
      case Built(blocks) =>
        var id := req.matiereIds[m - 1];
        var target := TargetOf(req.pointsPerMatiere, id);
        if !IsActive(target) then Built(blocks)
        else
          match Find(SubjectPool(pool, id), target.value, {}, shuffle, [k, m - 1])
          case None => Failed(id, target.value)
          case Some(c) => Built(blocks + [c])
  }

  /** The subjects with a positive target among the first `m` ids, in order,
      with their targets. */
  function ActiveSubjects(req: Request, m: nat): seq<(int, real)>
    requires m <= |req.matiereIds|
  {
    if m == 0 then []
    else
      var id := req.matiereIds[m - 1];
      var target := TargetOf(req.pointsPerMatiere, id);
      ActiveSubjects(req, m - 1) + (if IsActive(target) then [(id, target.value)] else [])
  }

  /** Block j is a combination for the j-th active subject, drawn from that
      subject's questions only. */
  ghost predicate BlocksFit(blocks: seq<seq<Question>>, subjects: seq<(int, real)>, pool: seq<Question>)
  {
    |blocks| == |subjects|
    && forall j :: 0 <= j < |blocks| ==> IsCombination(blocks[j], SubjectPool(pool, subjects[j].0), subjects[j].1, {})
  }

  /** A well-formed version: one block per subject with a positive target,
      concatenated in the order of the request's subject ids. */
  ghost predicate IsVersion(v: seq<Question>, req: Request, pool: seq<Question>)
  {
    exists blocks :: v == Concat(blocks) && BlocksFit(blocks, ActiveSubjects(req, |req.matiereIds|), pool)
  }

  // ---------------------------------------------------------------------
  // Signatures and the uniqueness filter

  function IdList(v: seq<Question>): seq<int>
  {
    if v == [] then [] else [v[0].id] + IdList(v[1..])
  }

  /** `v.map(q => q.id).sort().join(',')`. Sorting makes the text depend on
      the multiset of ids only, and joining decimal ids with commas loses
      nothing (`String(id)` is one-to-one and has no comma), so two
      signatures are equal exactly when the multisets of ids are. */
  function Signature(v: seq<Question>): multiset<int>
  {
    multiset(IdList(v))
  }

  function Signatures(vs: seq<seq<Question>>): set<multiset<int>>
  {
    set v | v in vs :: Signature(v)
  }

  /** The versions kept from a list of attempts: a non-empty attempt is kept
      when no earlier kept version has its signature. */
  function KeepUnique(attempts: seq<seq<Question>>): seq<seq<Question>>
  {
    if attempts == [] then []
    else
      var kept := KeepUnique(attempts[..|attempts| - 1]);
      var v := attempts[|attempts| - 1];
      if v != [] && Signature(v) !in Signatures(kept) then kept + [v] else kept
  }

  /** The first non-empty attempt with signature `s`, if any. */
  function FirstWithSignature(attempts: seq<seq<Question>>, s: multiset<int>): Option<seq<Question>>
  {
    if attempts == [] then None
    else
      match FirstWithSignature(attempts[..|attempts| - 1], s)
      case Some(v) => Some(v)
      case None =>
        var v := attempts[|attempts| - 1];
        if v != [] && Signature(v) == s then Some(v) else None
  }

  // ---------------------------------------------------------------------
  // The whole request

  datatype Run = Aborted(matiereId: int, target: real) | Candidates(attempts: seq<seq<Question>>)

  /** The first `n` attempts: the versions they assembled, or the first
      subject that had no combination. */
  function RunAttempts(req: Request, pool: seq<Question>, shuffle: Shuffler, n: nat): Run
    requires IsShuffler(shuffle)
  {
    if n == 0 then Candidates([])
    else
      match RunAttempts(req, pool, shuffle, n - 1)
      case Aborted(id, t) => Aborted(id, t)
      case Candidates(attempts) =>
        match Assemble(req, pool, shuffle, n - 1, |req.matiereIds|)
        case Failed(id, t) => Aborted(id, t)
        case Built(blocks) => Candidates(attempts + [Concat(blocks)])
  }

  /** The response the route sends for a request and the rows its query
      returned. */
  function Generate(req: Request, pool: seq<Question>, shuffle: Shuffler): Response
    requires IsShuffler(shuffle)
  {
    if |req.matiereIds| == 0 || |req.pointsPerMatiere| == 0 then MissingInput
    else if |pool| == 0 then NoQuestions
    else
      var requested := RequestedVersions(req.numVersions);
      match RunAttempts(req, pool, shuffle, Attempts(requested))
      case Aborted(id, t) => Unsatisfiable(id, t)
      case Candidates(attempts) =>
        var versions := KeepUnique(attempts);
        Generated(versions, |versions| < requested)
  }

  /** The route handler, from the input check to the final message. */
  method GenerateExamVersions(req: Request, pool: seq<Question>, shuffle: Shuffler) returns (resp: Response)
    requires IsShuffler(shuffle)
    ensures resp == Generate(req, pool, shuffle)
  {
    var requested := RequestedVersions(req.numVersions);
    if |req.matiereIds| == 0 || |req.pointsPerMatiere| == 0 {
      return MissingInput;
    }
    if |pool| == 0 {
      return NoQuestions;
    }
    GenerateAfterRun(req, pool, shuffle);
    var failure, versions := RunVersions(req, pool, shuffle, requested);
    if failure.Some? {
      return Unsatisfiable(failure.value.0, failure.value.1);
    }
    resp := Generated(versions, |versions| < requested);
  }

  /** The attempt loop: `requested` versions are assembled one after the
      other and filtered for uniqueness; the first subject without a
      combination stops the loop. */
  method RunVersions(req: Request, pool: seq<Question>, shuffle: Shuffler, requested: int)
    returns (failure: Option<(int, real)>, versions: seq<seq<Question>>)
    requires IsShuffler(shuffle)
    ensures failure.Some? ==> RunAttempts(req, pool, shuffle, Attempts(requested)) == Aborted(failure.value.0, failure.value.1)
    ensures failure.None? ==> RunAttempts(req, pool, shuffle, Attempts(requested)).Candidates?
                              && versions == KeepUnique(RunAttempts(req, pool, shuffle, Attempts(requested)).attempts)
  {
    versions := [];
    var signatures: set<multiset<int>> := {};
    ghost var attempts: seq<seq<Question>> := [];
    var i := 0;
    while i < requested
      invariant 0 <= i <= Attempts(requested)
      invariant RunAttempts(req, pool, shuffle, i) == Candidates(attempts)
      invariant versions == KeepUnique(attempts)
      invariant signatures == Signatures(versions)
    {
      var current, failed := AssembleVersion(req, pool, shuffle, i);
      RunStep(req, pool, shuffle, i, attempts);
      if failed.Some? {
        RunAbortStays(req, pool, shuffle, i + 1, Attempts(requested));
        return failed, versions;
      }
      KeepStep(attempts, current);
      versions, signatures := KeepIfNew(versions, signatures, current);
      attempts := attempts + [current];
      i := i + 1;
    }
    assert i == Attempts(requested);
    failure := None;
  }

  /** The uniqueness filter for one attempt: a non-empty version whose
      signature has not been seen is added, and its signature recorded. */
  method KeepIfNew(versions: seq<seq<Question>>, signatures: set<multiset<int>>, current: seq<Question>)
    returns (versions': seq<seq<Question>>, signatures': set<multiset<int>>)
    requires signatures == Signatures(versions)
    ensures versions' == if current != [] && Signature(current) !in Signatures(versions)
                         then versions + [current] else versions
    ensures signatures' == Signatures(versions')
  {
    versions', signatures' := versions, signatures;
    if |current| > 0 {
      var signature := Signature(current);
      if signature !in signatures {
        SignaturesAppend(versions, current);
        versions' := versions + [current];
        signatures' := signatures + {signature};
      }
    }
  }

  /** The subject loop of attempt `k`: the questions of the version, or the
      first subject (and its target) for which no combination was found. */
  method AssembleVersion(req: Request, pool: seq<Question>, shuffle: Shuffler, k: nat)
    returns (current: seq<Question>, failure: Option<(int, real)>)
    requires IsShuffler(shuffle)
    ensures failure.None? ==> Assemble(req, pool, shuffle, k, |req.matiereIds|).Built?
                              && current == Concat(Assemble(req, pool, shuffle, k, |req.matiereIds|).blocks)
    ensures failure.Some? ==> Assemble(req, pool, shuffle, k, |req.matiereIds|) == Failed(failure.value.0, failure.value.1)
  {
    current := [];
    ghost var blocks: seq<seq<Question>> := [];
    var m := 0;
    while m < |req.matiereIds|
      invariant 0 <= m <= |req.matiereIds|
      invariant Assemble(req, pool, shuffle, k, m) == Built(blocks)
      invariant current == Concat(blocks)
    {
      var matiereId := req.matiereIds[m];
      var target := TargetOf(req.pointsPerMatiere, matiereId);
      AssembleStep(req, pool, shuffle, k, m, blocks);
      if target.Some? && target.value > 0.0 {
        var combination := FindCombination(SubjectPool(pool, matiereId), target.value, {}, shuffle, [k, m]);
        if combination.None? {
          AssembleFailureStays(req, pool, shuffle, k, m + 1);
          return current, Some((matiereId, target.value));
        }
        current := current + combination.value;
        blocks := blocks + [combination.value];
      }
      m := m + 1;
    }
    failure := None;
  }

  // ---------------------------------------------------------------------
  // Lemmas tying the loops to the specification

  lemma {:induction false} SignaturesAppend(vs: seq<seq<Question>>, v: seq<Question>)
    ensures Signatures(vs + [v]) == Signatures(vs) + {Signature(v)}
  {
    assert forall w :: w in vs + [v] <==> w in vs || w == v;
  }

  /** The response once the attempt loop has run to its end. */
  lemma {:induction false} GenerateAfterRun(req: Request, pool: seq<Question>, shuffle: Shuffler)
    requires IsShuffler(shuffle)
    requires |req.matiereIds| > 0 && |req.pointsPerMatiere| > 0 && |pool| > 0
    ensures var requested := RequestedVersions(req.numVersions);
            Generate(req, pool, shuffle)
            == match RunAttempts(req, pool, shuffle, Attempts(requested))
               case Aborted(id, t) => Unsatisfiable(id, t)
               case Candidates(attempts) =>
                 Generated(KeepUnique(attempts), |KeepUnique(attempts)| < requested)
  {
  }

  /** One more attempt: a version extends the candidates, a failure aborts. */
  lemma {:induction false} RunStep(req: Request, pool: seq<Question>, shuffle: Shuffler, i: nat, attempts: seq<seq<Question>>)
    requires IsShuffler(shuffle)
    requires RunAttempts(req, pool, shuffle, i) == Candidates(attempts)
    ensures RunAttempts(req, pool, shuffle, i + 1)
            == match Assemble(req, pool, shuffle, i, |req.matiereIds|)
               case Failed(id, t) => Aborted(id, t)
               case Built(blocks) => Candidates(attempts + [Concat(blocks)])
  {
  }

  /** One more subject of attempt `k`. */
  lemma {:induction false} AssembleStep(req: Request, pool: seq<Question>, shuffle: Shuffler, k: nat, m: nat, blocks: seq<seq<Question>>)
    requires IsShuffler(shuffle)
    requires m < |req.matiereIds|
    requires Assemble(req, pool, shuffle, k, m) == Built(blocks)
    ensures var id := req.matiereIds[m];
            var target := TargetOf(req.pointsPerMatiere, id);
            Assemble(req, pool, shuffle, k, m + 1)
            == if !IsActive(target) then Built(blocks)
               else match Find(SubjectPool(pool, id), target.value, {}, shuffle, [k, m])
                    case None => Failed(id, target.value)
                    case Some(c) => Built(blocks + [c])
  {
  }

  /** The uniqueness filter on one more attempt. */
  lemma {:induction false} KeepStep(attempts: seq<seq<Question>>, v: seq<Question>)
    ensures KeepUnique(attempts + [v])
            == if v != [] && Signature(v) !in Signatures(KeepUnique(attempts))
               then KeepUnique(attempts) + [v] else KeepUnique(attempts)
  {
    assert (attempts + [v])[..|attempts|] == attempts;
  }

  lemma {:induction false} AssembleFailureStays(req: Request, pool: seq<Question>, shuffle: Shuffler, k: nat, m: nat)
    requires IsShuffler(shuffle)
    requires m <= |req.matiereIds|
    requires Assemble(req, pool, shuffle, k, m).Failed?
    ensures Assemble(req, pool, shuffle, k, |req.matiereIds|) == Assemble(req, pool, shuffle, k, m)
    decreases |req.matiereIds| - m
  {
    if m < |req.matiereIds| {
      AssembleFailureStays(req, pool, shuffle, k, m + 1);
    }
  }

  lemma {:induction false} RunAbortStays(req: Request, pool: seq<Question>, shuffle: Shuffler, n: nat, n': nat)
    requires IsShuffler(shuffle)
    requires n <= n'
    requires RunAttempts(req, pool, shuffle, n).Aborted?
    ensures RunAttempts(req, pool, shuffle, n') == RunAttempts(req, pool, shuffle, n)
    decreases n' - n
  {
    if n < n' {
      RunAbortStays(req, pool, shuffle, n, n' - 1);
    }
  }
}
