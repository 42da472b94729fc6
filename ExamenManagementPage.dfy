/** The subject list of the exam form: adding a subject picked in the
    select, removing one, changing its coefficient, and the payload sent on
    submit. Every operation builds a new list. */
module ExamenManagementPage {
  import opened JsRuntime

  datatype Matiere = Matiere(id: int, nomMatiere: string)

  /** An entry of `subjectsInExam`. */
  datatype ExamSubject = ExamSubject(idMatiere: int, nomMatiere: string, coefficient: int)

  /** `selected == id` between the select's value and a numeric id. The
      option values are the subjects' ids written in decimal, so loose
      equality is equality of that text. */
  predicate LooseEquals(selected: string, id: int)
  {
    selected == IntToString(id)
  }

  /** No two entries share a subject id. */
  ghost predicate UniqueIds(subjects: seq<ExamSubject>)
  {
    forall i, j :: 0 <= i < j < |subjects| ==> subjects[i].idMatiere != subjects[j].idMatiere
  }

  /** `allMatieres.find(m => m.id == selected)`. */
  function FindMatiere(allMatieres: seq<Matiere>, selected: string): (r: Option<Matiere>)
    ensures r.Some? ==> r.value in allMatieres && LooseEquals(selected, r.value.id)
    ensures r.Some? ==> exists i :: 0 <= i < |allMatieres| && allMatieres[i] == r.value
                                    && forall j :: 0 <= j < i ==> !LooseEquals(selected, allMatieres[j].id)
    ensures r.None? <==> forall m :: m in allMatieres ==> !LooseEquals(selected, m.id)
  {
    if allMatieres == [] then None
    else if LooseEquals(selected, allMatieres[0].id) then Some(allMatieres[0])
    else
      var rest := FindMatiere(allMatieres[1..], selected);
      assert forall m :: m in allMatieres ==> m == allMatieres[0] || m in allMatieres[1..];
      assert forall i :: 1 <= i < |allMatieres| ==> allMatieres[i] == allMatieres[1..][i - 1];
      rest
  }

  /** `addSubjectToExam`: nothing happens for an empty selection or a
      subject already in the list; otherwise the subject is appended with
      coefficient 1. An id that no loaded subject has makes the source
      throw before the state is set, so the list stays as it was. */
  function AddSubject(subjects: seq<ExamSubject>, allMatieres: seq<Matiere>, selected: string)
    : (r: seq<ExamSubject>)
    ensures selected == "" ==> r == subjects
    ensures (exists s :: s in subjects && LooseEquals(selected, s.idMatiere)) ==> r == subjects
    ensures |r| == |subjects| || |r| == |subjects| + 1
    ensures r[..|subjects|] == subjects
    ensures |r| == |subjects| + 1 ==>
              && selected != ""
              && (forall s :: s in subjects ==> !LooseEquals(selected, s.idMatiere))
              && exists m :: m in allMatieres && LooseEquals(selected, m.id)
                             && r[|subjects|] == ExamSubject(m.id, m.nomMatiere, 1)
    ensures |r| == |subjects| + 1 ==>
              var found := FindMatiere(allMatieres, selected);
              found.Some? && r[|subjects|] == ExamSubject(found.value.id, found.value.nomMatiere, 1)
    ensures (&& selected != ""
             && (forall s :: s in subjects ==> !LooseEquals(selected, s.idMatiere))
             && FindMatiere(allMatieres, selected).Some?)
            ==> |r| == |subjects| + 1
  {
    if selected == "" || exists s :: s in subjects && LooseEquals(selected, s.idMatiere) then subjects
    else
      match FindMatiere(allMatieres, selected)
      case None => subjects
      case Some(m) => subjects + [ExamSubject(m.id, m.nomMatiere, 1)]
  }

  /** `removeSubjectFromExam`: the entries with that id go, the others
      stay in order. */
  function RemoveSubject(subjects: seq<ExamSubject>, matiereId: int): (r: seq<ExamSubject>)
    ensures forall s :: s in r <==> s in subjects && s.idMatiere != matiereId
    ensures |r| <= |subjects|
  {
    if subjects == [] then []
    else (if subjects[0].idMatiere == matiereId then [] else [subjects[0]]) + RemoveSubject(subjects[1..], matiereId)
  }

  /** `parseInt(text, 10) || 1`. */
  function CoefficientOf(text: string): (c: int)
    ensures c != 0
    ensures ParseInt(text) == Some(c) || c == 1
    ensures ParseInt(text).None? || ParseInt(text) == Some(0) ==> c == 1
  {
    var parsed := ParseInt(text);
    if parsed.None? || parsed.value == 0 then 1 else parsed.value
  }

  /** `updateCoefficient`: only the entries with that id get the new
      coefficient; ids, names and order are kept. */
  function UpdateCoefficient(subjects: seq<ExamSubject>, matiereId: int, newCoeff: string): (r: seq<ExamSubject>)
    ensures |r| == |subjects|
    ensures forall i :: 0 <= i < |r| ==>
              && r[i].idMatiere == subjects[i].idMatiere
              && r[i].nomMatiere == subjects[i].nomMatiere
              && r[i].coefficient == (if subjects[i].idMatiere == matiereId then CoefficientOf(newCoeff)
                                      else subjects[i].coefficient)
  {
    seq(|subjects|, i requires 0 <= i < |subjects| =>
      if subjects[i].idMatiere == matiereId then subjects[i].(coefficient := CoefficientOf(newCoeff))
      else subjects[i])
  }

  /** The submitted form, or the refusal when the list is empty or no
      promotion is set. */
  datatype Submission = Refused | Payload(matieres: seq<(int, int)>)

  /** `handleFormSubmit`: the payload lists `(id_matiere, coefficient)` of
      each entry, in list order. */
  function FormSubmit(subjects: seq<ExamSubject>, idPromotion: JsValue): Submission
  {
    if |subjects| == 0 || !Truthy(idPromotion) then Refused
    else Payload(seq(|subjects|, i requires 0 <= i < |subjects| => (subjects[i].idMatiere, subjects[i].coefficient)))
  }

  // ---------------------------------------------------------------------
  // Properties

  /** A coefficient typed as a number is that number, except 0, which
      becomes 1. */
  lemma {:induction false} CoefficientOfNumber(n: int)
    ensures CoefficientOf(IntToString(n)) == if n == 0 then 1 else n
  {
    ParseIntOfIntToString(n);
  }

  /** The filter works entry by entry: it keeps the order and the
      repetitions of the other entries. */
  lemma {:induction false} RemoveConcat(a: seq<ExamSubject>, b: seq<ExamSubject>, matiereId: int)
    ensures RemoveSubject(a + b, matiereId) == RemoveSubject(a, matiereId) + RemoveSubject(b, matiereId)
    decreases |a|
  {
    if a == [] {
      assert a + b == b;
    } else {
      assert (a + b)[0] == a[0];
      assert (a + b)[1..] == a[1..] + b;
      RemoveConcat(a[1..], b, matiereId);
    }
  }

  /** The filter of no entry, and of one entry. */
  lemma {:induction false} RemoveSingle(s: ExamSubject, matiereId: int)
    ensures RemoveSubject([], matiereId) == []
    ensures RemoveSubject([s], matiereId) == if s.idMatiere == matiereId then [] else [s]
  {
    assert [s][1..] == [];
  }


  /** Adding keeps the ids unique. */
  lemma {:induction false} AddKeepsUnique(subjects: seq<ExamSubject>, allMatieres: seq<Matiere>, selected: string)
    requires UniqueIds(subjects)
    ensures UniqueIds(AddSubject(subjects, allMatieres, selected))
  {
    var r := AddSubject(subjects, allMatieres, selected);
    if |r| == |subjects| + 1 {
      forall i, j | 0 <= i < j < |r| ensures r[i].idMatiere != r[j].idMatiere {
        if j == |subjects| {
          var m :| m in allMatieres && LooseEquals(selected, m.id) && r[|subjects|] == ExamSubject(m.id, m.nomMatiere, 1);
          assert r[i] == subjects[i];
          assert subjects[i] in subjects;
        } else {
          assert r[i] == subjects[i] && r[j] == subjects[j];
        }
      }
    }
  }

  /** Removing keeps the ids unique. */
  lemma {:induction false} RemoveKeepsUnique(subjects: seq<ExamSubject>, matiereId: int)
    requires UniqueIds(subjects)
    ensures UniqueIds(RemoveSubject(subjects, matiereId))
  {
    if subjects != [] {
      var rest := subjects[1..];
      assert UniqueIds(rest) by {
        forall i, j | 0 <= i < j < |rest| ensures rest[i].idMatiere != rest[j].idMatiere {
          assert rest[i] == subjects[i + 1] && rest[j] == subjects[j + 1];
        }
      }
      RemoveKeepsUnique(rest, matiereId);
      var tail := RemoveSubject(rest, matiereId);
      if subjects[0].idMatiere != matiereId {
        var r := RemoveSubject(subjects, matiereId);
        assert r == [subjects[0]] + tail;
        forall j | 0 <= j < |tail| ensures tail[j].idMatiere != subjects[0].idMatiere {
          assert tail[j] in rest;
          var k :| 0 <= k < |rest| && rest[k] == tail[j];
          assert rest[k] == subjects[k + 1];
        }
      }
    }
  }

  /** Changing coefficients keeps the ids, so it keeps them unique. */
  lemma {:induction false} UpdateKeepsUnique(subjects: seq<ExamSubject>, matiereId: int, newCoeff: string)
    requires UniqueIds(subjects)
    ensures UniqueIds(UpdateCoefficient(subjects, matiereId, newCoeff))
  {
    var r := UpdateCoefficient(subjects, matiereId, newCoeff);
    forall i, j | 0 <= i < j < |r| ensures r[i].idMatiere != r[j].idMatiere {
    }
  }

  /** Removing an id the list does not hold changes nothing. */
  lemma {:induction false} RemoveAbsent(subjects: seq<ExamSubject>, matiereId: int)
    requires forall s :: s in subjects ==> s.idMatiere != matiereId
    ensures RemoveSubject(subjects, matiereId) == subjects
  {
    if subjects != [] {
      RemoveAbsent(subjects[1..], matiereId);
      assert [subjects[0]] + subjects[1..] == subjects;
    }
  }

  /** Adding a subject and removing it again restores the list. */
  lemma {:induction false} AddThenRemove(subjects: seq<ExamSubject>, allMatieres: seq<Matiere>, matiereId: int)
    ensures RemoveSubject(AddSubject(subjects, allMatieres, IntToString(matiereId)), matiereId)
            == RemoveSubject(subjects, matiereId)
  {
    var selected := IntToString(matiereId);
    var r := AddSubject(subjects, allMatieres, selected);
    if |r| == |subjects| + 1 {
      var m :| m in allMatieres && LooseEquals(selected, m.id) && r[|subjects|] == ExamSubject(m.id, m.nomMatiere, 1);
      IntToStringInjective(m.id, matiereId);
      assert r == subjects + [r[|subjects|]];
      RemoveAppended(subjects, r[|subjects|], matiereId);
    }
  }

  lemma {:induction false} RemoveAppended(subjects: seq<ExamSubject>, s: ExamSubject, matiereId: int)
    requires s.idMatiere == matiereId
    ensures RemoveSubject(subjects + [s], matiereId) == RemoveSubject(subjects, matiereId)
  {
    if subjects == [] {
      assert RemoveSubject([s], matiereId) == [] + RemoveSubject([s][1..], matiereId);
    } else {
      assert (subjects + [s])[1..] == subjects[1..] + [s];
      RemoveAppended(subjects[1..], s, matiereId);
    }
  }

  /** The payload is refused exactly when the list is empty or no promotion
      is set; otherwise it pairs each entry's id with its coefficient, in
      order, and with unique ids in the list its ids are unique too. */
  lemma {:induction false} FormSubmitFacts(subjects: seq<ExamSubject>, idPromotion: JsValue)
    ensures FormSubmit(subjects, idPromotion).Refused? <==> |subjects| == 0 || !Truthy(idPromotion)
    ensures FormSubmit(subjects, idPromotion).Payload? ==>
              var p := FormSubmit(subjects, idPromotion).matieres;
              && |p| == |subjects|
              && (forall i :: 0 <= i < |p| ==> p[i] == (subjects[i].idMatiere, subjects[i].coefficient))
              && (UniqueIds(subjects) ==> forall i, j :: 0 <= i < j < |p| ==> p[i].0 != p[j].0)
  {
  }
}
