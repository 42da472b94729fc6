/** `normalizeReponses`: bring a question's stored answers into the one
    format the rest of the application reads, an array of answer objects.
    The utility module's version rewrites `reponses`; the server's copy does
    the same and also normalises `reponses_meta`. Both share `Answers`.

    JSON.parse is a parameter `parse` that yields a value or fails (None);
    `String(x)` of a value that is not a string is the parameter `show`. */
module Normalize {
  import opened JsRuntime

  type Question = map<string, JsValue>
  type Parser = string -> Option<JsValue>

  /** The object an answer given as bare text becomes. */
  function TextAnswer(text: string): JsValue
  {
    JObject(map["texte" := JString(Trim(text)), "est_correcte" := JBool(true)])
  }

  /** `String(x)` */
  function AsText(x: JsValue, show: JsValue -> string): string
  {
    if x.JString? then x.s else show(x)
  }

  /** The parsed form of a stored `reponses` value: a string is JSON-parsed
      (a failed parse reads as an empty array); anything else is taken as is. */
  function Parsed(raw: JsValue, parse: Parser): JsValue
  {
    if raw.JString? then
      match parse(raw.s)
      case Some(v) => v
      case None => JArray([])
    else raw
  }

  /** The normalised answers. Only element 0 decides the format: when it is a
      string, every element becomes a text answer. */
  function Answers(raw: JsValue, parse: Parser, show: JsValue -> string): (r: JsValue)
    ensures r.JArray?
  {
    var v := Parsed(raw, parse);
    if v.JArray? && |v.items| > 0 then
      if v.items[0].JString? then
        JArray(seq(|v.items|, i requires 0 <= i < |v.items| => TextAnswer(AsText(v.items[i], show))))
      else v
    else JArray([])
  }

  /** `normalizeReponses` of backend/utils/normalize.js */
  function NormalizeReponses(q: Question, parse: Parser, show: JsValue -> string): (r: Question)
    ensures r.Keys == q.Keys + {"reponses"}
    ensures forall k :: k in q && k != "reponses" ==> r[k] == q[k]
    ensures r["reponses"].JArray?
  {
    q["reponses" := Answers(Field(q, "reponses"), parse, show)]
  }

  /** The `reponses_meta` rule of the server's copy: a string is parsed (null
      on failure); any value whose typeof is "object", null included, is kept;
      anything else becomes null. */
  function Meta(raw: JsValue, parse: Parser): JsValue
  {
    if raw.JString? then
      match parse(raw.s)
      case Some(v) => v
      case None => JNull
    else if TypeOf(raw) == "object" then raw
    else JNull
  }

  /** `normalizeReponses` of backend/server.js: the same answers rule, plus
      `reponses_meta`. */
  function NormalizeQuestion(q: Question, parse: Parser, show: JsValue -> string): (r: Question)
    ensures r.Keys == q.Keys + {"reponses", "reponses_meta"}
    ensures forall k :: k in q && k != "reponses" && k != "reponses_meta" ==> r[k] == q[k]
    ensures r["reponses"] == NormalizeReponses(q, parse, show)["reponses"]
    ensures r["reponses_meta"] == Meta(Field(q, "reponses_meta"), parse)
  {
    NormalizeReponses(q, parse, show)["reponses_meta" := Meta(Field(q, "reponses_meta"), parse)]
  }

  // ---------------------------------------------------------------------
  // What the two functions promise

  /** The `reponses_meta` cases: a string is replaced by what it parses to,
      or null when it does not parse; null, arrays and objects are kept;
      undefined, numbers and booleans become null. The result is undefined
      only if the parser yields undefined, which JSON.parse never does. */
  lemma {:induction false} MetaCases(raw: JsValue, parse: Parser)
    ensures raw.JString? && parse(raw.s).Some? ==> Meta(raw, parse) == parse(raw.s).value
    ensures raw.JString? && parse(raw.s).None? ==> Meta(raw, parse) == JNull
    ensures raw.JNull? || raw.JArray? || raw.JObject? ==> Meta(raw, parse) == raw
    ensures raw.JUndefined? || raw.JNumber? || raw.JBool? ==> Meta(raw, parse) == JNull
    ensures Meta(raw, parse) == JUndefined ==> raw.JString? && parse(raw.s) == Some(JUndefined)
  {
  }

  /** The empty-result cases: a string that does not parse, a value that is
      not an array, and an empty array all give `[]`. */
  lemma {:induction false} AnswersEmptyCases(raw: JsValue, parse: Parser, show: JsValue -> string)
    ensures raw.JString? && parse(raw.s).None? ==> Answers(raw, parse, show) == JArray([])
    ensures !raw.JString? && !(raw.JArray? && |raw.items| > 0) ==> Answers(raw, parse, show) == JArray([])
    ensures Answers(raw, parse, show).items == [] <==>
              !(Parsed(raw, parse).JArray? && |Parsed(raw, parse).items| > 0)
  {
  }

  /** Text answers: when element 0 is a string, the result has the same
      length and order, and element i is `{texte: String(x_i).trim(),
      est_correcte: true}`, later non-strings included. When element 0 is
      not a string the parsed array is returned unchanged. */
  lemma {:induction false} AnswersFormat(raw: JsValue, parse: Parser, show: JsValue -> string)
    requires Parsed(raw, parse).JArray? && |Parsed(raw, parse).items| > 0
    ensures var items := Parsed(raw, parse).items;
            var r := Answers(raw, parse, show).items;
            if items[0].JString? then
              |r| == |items|
              && forall i :: 0 <= i < |r| ==>
                   r[i].JObject? && r[i].fields.Keys == {"texte", "est_correcte"}
                   && r[i].fields["texte"] == JString(Trim(AsText(items[i], show)))
                   && r[i].fields["est_correcte"] == JBool(true)
            else r == items
  {
    var items := Parsed(raw, parse).items;
    if items[0].JString? {
      var r := Answers(raw, parse, show).items;
      forall i | 0 <= i < |r|
        ensures r[i] == TextAnswer(AsText(items[i], show))
      {
      }
    }
  }

  /** Normalised answers are a fixed point: normalising them again changes
      nothing, whatever `parse` and `show` are. */
  lemma {:induction false} AnswersIdempotent(raw: JsValue, parse: Parser, show: JsValue -> string)
    ensures Answers(Answers(raw, parse, show), parse, show) == Answers(raw, parse, show)
  {
    var r := Answers(raw, parse, show);
    var v := Parsed(raw, parse);
    if |r.items| > 0 {
      assert Parsed(r, parse) == r;
      if v.items[0].JString? {
        assert r.items[0] == TextAnswer(AsText(v.items[0], show));
      } else {
        assert r == v;
      }
    }
  }

  /** `normalizeReponses` is idempotent. */
  lemma {:induction false} NormalizeReponsesIdempotent(q: Question, parse: Parser, show: JsValue -> string)
    ensures NormalizeReponses(NormalizeReponses(q, parse, show), parse, show) == NormalizeReponses(q, parse, show)
  {
    var once := NormalizeReponses(q, parse, show);
    AnswersIdempotent(Field(q, "reponses"), parse, show);
    assert Field(once, "reponses") == Answers(Field(q, "reponses"), parse, show);
  }

  /** The server's copy is idempotent whenever the normalised
      `reponses_meta` is null, an array or an object. It is not when that
      field was a JSON text denoting a string, number or boolean: the first
      pass keeps the parsed scalar, the second turns it into null (a number
      or boolean) or parses it again (a string). */
  lemma {:induction false} NormalizeQuestionIdempotent(q: Question, parse: Parser, show: JsValue -> string)
    requires TypeOf(NormalizeQuestion(q, parse, show)["reponses_meta"]) == "object"
    ensures NormalizeQuestion(NormalizeQuestion(q, parse, show), parse, show) == NormalizeQuestion(q, parse, show)
  {
    var once := NormalizeQuestion(q, parse, show);
    AnswersIdempotent(Field(q, "reponses"), parse, show);
    assert Field(once, "reponses") == Answers(Field(q, "reponses"), parse, show);
  }

  /** A `reponses_meta` text denoting a number is where the server's copy is
      not idempotent: the number survives the first pass and not the second. */
  lemma {:induction false} MetaScalarNotIdempotent(parse: Parser, text: string, x: real)
    requires parse(text) == Some(JNumber(x))
    ensures Meta(JString(text), parse) == JNumber(x)
    ensures Meta(Meta(JString(text), parse), parse) == JNull
  {
  }
}
