/** The saved-subjects page: questions of a saved subject grouped by their
    subject name, and the query parameters built from the filters. */
module PageSujet {
  import opened JsRuntime
  import opened Grouping

  /** A saved question; `nomMatiere` is `None` when the row has no name. */
  datatype SujetQuestion = SujetQuestion(id: int, nomMatiere: Option<string>, points: real)

  /** `question.nom_matiere || 'Matière Inconnue'`: a missing or empty
      name falls into the placeholder bucket. */
  function NameOf(q: SujetQuestion): (name: string)
    ensures name != ""
    ensures q.nomMatiere.Some? && q.nomMatiere.value != "" ==> name == q.nomMatiere.value
    ensures q.nomMatiere.None? || q.nomMatiere.value == "" ==> name == UnknownMatiere
  {
    if q.nomMatiere.Some? && q.nomMatiere.value != "" then q.nomMatiere.value else UnknownMatiere
  }

  /** `groupQuestionsByMatiere`; `None` stands for a value that is not an array. */
  method GroupQuestionsByMatiere(questions: Option<seq<SujetQuestion>>) returns (groups: map<string, seq<SujetQuestion>>)
    ensures questions.None? ==> groups == map[]
    ensures questions.Some? ==>
              groups.Keys == KeysOf(questions.value, NameOf)
              && forall k :: k in groups ==> groups[k] == Bucket(questions.value, NameOf, k)
    ensures questions.Some? ==>
              forall q :: q in questions.value ==> NameOf(q) in groups && q in groups[NameOf(q)]
  {
    if questions.None? {
      return map[];
    }
    groups := GroupBy(questions.value, NameOf);
    forall q | q in questions.value ensures NameOf(q) in groups && q in groups[NameOf(q)] {
      var i :| 0 <= i < |questions.value| && questions.value[i] == q;
      assert NameOf(questions.value[i]) in KeysOf(questions.value, NameOf);
      BucketMembers(questions.value, NameOf, NameOf(q), q);
    }
  }

  // ---------------------------------------------------------------------
  // Filter parameters

  /** The three filters, as the select inputs give them; "" means no filter. */
  datatype Filtres = Filtres(promotionId: string, parentExamId: string, typeExamen: string)

  /** `URLSearchParams` as a list of name/value pairs. Percent-encoding by
      `toString()` is not modelled. */
  class SearchParams {
    var entries: seq<(string, string)>

    constructor()
      ensures entries == []
    {
      entries := [];
    }

    method Append(name: string, value: string)
      modifies this
      ensures entries == old(entries) + [(name, value)]
    {
      entries := entries + [(name, value)];
    }
  }

  /** The parameters of the non-empty filters, in the order the page tests them. */
  function FilterEntries(f: Filtres): seq<(string, string)>
  {
    (if f.promotionId != "" then [("promotionId", f.promotionId)] else [])
    + (if f.parentExamId != "" then [("parentExamId", f.parentExamId)] else [])
    + (if f.typeExamen != "" then [("typeExamen", f.typeExamen)] else [])
  }

  /** The query of `loadSujets`: a parameter is appended for each non-empty
      filter, one after the other. */
  method LoadSujetsParams(f: Filtres) returns (params: SearchParams)
    ensures fresh(params)
    ensures params.entries == FilterEntries(f)
  {
    params := new SearchParams();
    if f.promotionId != "" {
      params.Append("promotionId", f.promotionId);
    }
    if f.parentExamId != "" {
      params.Append("parentExamId", f.parentExamId);
    }
    if f.typeExamen != "" {
      params.Append("typeExamen", f.typeExamen);
    }
  }

  /** The position of a filter name in the order the page appends them. */
  function Rank(name: string): int
  {
    if name == "promotionId" then 0 else if name == "parentExamId" then 1 else 2
  }

  /** A parameter is present exactly for each non-empty filter, with that
      filter's value; no value is empty; names never repeat and follow the
      fixed order promotionId, parentExamId, typeExamen. */
  lemma {:induction false} FilterEntriesFacts(f: Filtres)
    ensures ("promotionId", f.promotionId) in FilterEntries(f) <==> f.promotionId != ""
    ensures ("parentExamId", f.parentExamId) in FilterEntries(f) <==> f.parentExamId != ""
    ensures ("typeExamen", f.typeExamen) in FilterEntries(f) <==> f.typeExamen != ""
    ensures forall e :: e in FilterEntries(f) ==>
              e.1 != "" && (e == ("promotionId", f.promotionId) || e == ("parentExamId", f.parentExamId)
                            || e == ("typeExamen", f.typeExamen))
    ensures forall i, j :: 0 <= i < j < |FilterEntries(f)| ==>
              Rank(FilterEntries(f)[i].0) < Rank(FilterEntries(f)[j].0)
  {
    var a := if f.promotionId != "" then [("promotionId", f.promotionId)] else [];
    var b := if f.parentExamId != "" then [("parentExamId", f.parentExamId)] else [];
    var c := if f.typeExamen != "" then [("typeExamen", f.typeExamen)] else [];
    assert FilterEntries(f) == a + b + c;
    assert "promotionId" != "parentExamId" && "promotionId" != "typeExamen" && "parentExamId" != "typeExamen";
  }
}
