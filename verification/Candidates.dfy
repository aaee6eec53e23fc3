/** JSON values as the release scripts see them, and the identity of a release candidate. */
module Candidates {
  import opened Wrappers

  datatype Json =
    | Null
    | Bool(b: bool)
    | Number(text: string)
    | Str(s: string)
    | Array(items: seq<Json>)
    | Object(fields: map<string, Json>)

  /** A value a script holds: `undefined`, or JSON. */
  datatype Value = Undefined | Js(json: Json)

  /** `v?.[key]`. None of the keys used is one that strings, numbers or arrays carry. */
  function Get(v: Value, key: string): Value {
    if v.Js? && v.json.Object? && key in v.json.fields then Js(v.json.fields[key]) else Undefined
  }

  /** `v ?? null`. */
  function OrNull(v: Value): Value {
    if v == Undefined then Js(Null) else v
  }

  /** `v ?? {}`. */
  function OrEmpty(v: Value): Value {
    if v == Undefined || v == Js(Null) then Js(Object(map[])) else v
  }

  function Truthy(v: Value): bool {
    match v
    case Undefined => false
    case Js(Null) => false
    case Js(Bool(b)) => b
    case Js(Number(text)) => text != "0" && text != "NaN"
    case Js(Str(s)) => s != ""
    case _ => true
  }

  function JsonText(j: Json): string {
    match j
    case Null => "null"
    case Bool(b) => if b then "true" else "false"
    case Number(text) => text
    case Str(s) => s
    case Array(items) => ItemsText(items)
    case Object(_) => "[object Object]"
  }

  /** `String(v)`. */
  function Text(v: Value): string {
    if v.Undefined? then "undefined" else JsonText(v.json)
  }

  function ItemsText(items: seq<Json>): string {
    if items == [] then ""
    else
      var first := if items[0].Null? then "" else JsonText(items[0]);
      if |items| == 1 then first else first + "," + ItemsText(items[1..])
  }

  lemma ItemsJoin(first: string, middle: string, last: string)
    ensures first + "," + (middle + "," + last) == (first + "," + middle) + "," + last
  {
  }

  /** A field that holds a text reads as that text, one that is absent as "undefined"; so two texts read alike only
      if they are equal. */
  lemma FieldReads(fields: map<string, Json>, key: string)
    ensures key in fields && fields[key].Str? ==> Text(Get(Js(Object(fields)), key)) == fields[key].s
    ensures key !in fields ==> Text(Get(Js(Object(fields)), key)) == "undefined"
    ensures OrNull(Get(Js(Object(fields)), key)) == if key in fields then Js(fields[key]) else Js(Null)
  {
  }

  /** What other values read as. An array reads as its items with commas between them, a null item as nothing. */
  lemma {:induction false} OthersRead(a: seq<Json>, b: seq<Json>, item: Json)
    ensures Text(Js(Null)) == "null" && Text(Js(Bool(true))) == "true" && Text(Js(Bool(false))) == "false"
    ensures Text(Js(Object(map[]))) == "[object Object]" && Text(Js(Array(a))) == ItemsText(a)
    ensures ItemsText([]) == "" && ItemsText([item]) == if item == Null then "" else Text(Js(item))
    ensures a != [] && b != [] ==> ItemsText(a + b) == ItemsText(a) + "," + ItemsText(b)
    decreases a
  {
    if a != [] && b != [] {
      var first := if a[0].Null? then "" else JsonText(a[0]);
      assert (a + b)[1..] == a[1..] + b;
      assert ItemsText(a + b) == first + "," + ItemsText(a[1..] + b);
      if |a| > 1 {
        OthersRead(a[1..], b, item);
        ItemsJoin(first, ItemsText(a[1..]), ItemsText(b));
      } else {
        assert a[1..] + b == b && ItemsText(a) == first;
      }
    }
  }

  /** Exactly these are taken for false. */
  lemma FalsyAre(v: Value)
    ensures !Truthy(v) <==> v in {Undefined, Js(Null), Js(Bool(false)), Js(Number("0")), Js(Number("NaN")), Js(Str(""))}
  {
  }

  const CANDIDATE_FIELDS: seq<string> := ["component", "version", "commit", "vsixSha256"]

  predicate SameField(a: Value, b: Value, field: string) {
    Text(Get(a, field)) == Text(Get(b, field))
  }

  predicate SameFields(a: Value, b: Value) {
    SameField(a, b, "component") && SameField(a, b, "version") && SameField(a, b, "commit")
      && SameField(a, b, "vsixSha256")
  }

  predicate CandidatesMatch(a: Value, b: Value) {
    Truthy(a) && Truthy(b) && SameFields(a, b)
  }

  // ---------------------------------------------------------------- the staged candidate

  const STAGE_SCHEMA := "labview-benchmark-actor/release-stage@1"

  predicate NonEmptyString(v: Value) {
    v.Js? && v.json.Str? && v.json.s != ""
  }

  /** A stage payload: an object with the stage schema whose candidate has all four fields as non-empty texts. */
  ghost predicate StageNames(parsed: Option<Json>, candidate: Value) {
    && parsed.Some? && Get(Js(parsed.value), "schema") == Js(Str(STAGE_SCHEMA))
    && candidate == Get(Js(parsed.value), "candidate")
    && Truthy(candidate) && forall f :: f in CANDIDATE_FIELDS ==> NonEmptyString(Get(candidate, f))
  }

  /** The candidate a stage payload names, if the payload is a well-formed release-stage@1 object. */
  function ParseStagedCandidate(payload: string, parse: string -> Option<Json>): (r: Option<Value>)
    ensures r.Some? ==> Truthy(r.value) && forall f :: f in CANDIDATE_FIELDS ==> NonEmptyString(Get(r.value, f))
    ensures r.None? ==> forall candidate :: !StageNames(parse(payload), candidate)
    ensures r.Some? ==> StageNames(parse(payload), r.value)
  {
    match parse(payload)
    case None => None
    case Some(json) =>
      var candidate := Get(Js(json), "candidate");
      if Get(Js(json), "schema") != Js(Str(STAGE_SCHEMA)) || !Truthy(candidate)
         || exists f :: f in CANDIDATE_FIELDS && !NonEmptyString(Get(candidate, f))
      then None
      else Some(candidate)
  }

  /** The frame a staging drive closed its loop with; an absent string is None. */
  datatype Frame = Frame(senderId: string, kind: string, task: Option<string>, payload: Option<string>)

  datatype Staged = Staged(drive: Value, vm: Value, matched: bool, candidate: Value, frame: Option<Frame>)

  predicate StagedOk(staged: Staged, candidate: Value, parse: string -> Option<Json>) {
    var c := OrEmpty(candidate);
    && staged.matched && staged.frame.Some?
    && staged.frame.value.senderId == "WIN"
    && staged.frame.value.kind == "DONE"
    && staged.frame.value.task.Some? && staged.frame.value.task.value != ""
    && staged.frame.value.payload.Some? && staged.frame.value.payload.value != ""
    && var named := ParseStagedCandidate(staged.frame.value.payload.value, parse);
    && named.Some?
    && CandidatesMatch(staged.candidate, c)
    && CandidatesMatch(named.value, c)
    && CandidatesMatch(staged.candidate, named.value)
  }
}
