/** The survey schema: question tags, questions, surveys and the geography table. */
module SurveyTypes {
  import opened Wrappers
  import opened Objects
  import opened Decimal

  /**
   * A question's `type`. The declared type admits seven tags; `Other` holds
   * any other string found at run time (the editor page writes "text" and
   * "multipleChoice"), which the renderer dispatch must also handle.
   */
  datatype QuestionType =
    | Input | Radio | Checkbox | QuestionGroup | Select | Textarea | Unit
    | Other(tag: string)

  function TagName(t: QuestionType): string {
    match t
    case Input => "input"
    case Radio => "radio"
    case Checkbox => "checkbox"
    case QuestionGroup => "questionGroup"
    case Select => "select"
    case Textarea => "textarea"
    case Unit => "unit"
    case Other(tag) => tag
  }

  /** Reading a `type` string: each of the seven names is its own tag. */
  function ParseTag(s: string): (t: QuestionType)
    ensures TagName(t) == s
    ensures t.Other? <==> s !in KnownTags()
  {
    if s == "input" then Input
    else if s == "radio" then Radio
    else if s == "checkbox" then Checkbox
    else if s == "questionGroup" then QuestionGroup
    else if s == "select" then Select
    else if s == "textarea" then Textarea
    else if s == "unit" then Unit
    else Other(s)
  }

  function KnownTags(): set<string> {
    {"input", "radio", "checkbox", "questionGroup", "select", "textarea", "unit"}
  }

  /** A tag read back from its name is the same tag, unless it is an `Other` posing as a known name. */
  lemma TagRoundTrip(t: QuestionType)
    requires t.Other? ==> t.tag !in KnownTags()
    ensures ParseTag(TagName(t)) == t
  {
  }

  datatype SubQuestion = SubQuestion(content: string, placeholder: Option<string>)

  datatype Question = Question(
    qtype: QuestionType,
    text: string,
    required: Option<bool>,
    placeholder: Option<string>,
    params: Option<seq<string>>,
    subQuestions: Option<seq<SubQuestion>>)

  /**
   * A survey. `questions` is declared as an array but every reader goes
   * through `Object.entries` or a key lookup, so it is an id-keyed object.
   */
  datatype Survey = Survey(
    id: string,
    title: string,
    description: string,
    questions: Obj<Question>,
    lasted: Option<int>)

  /** A province, district or ward of the geography table. */
  datatype City = City(name: string, districts: Option<Obj<City>>, wards: Option<Obj<City>>)

  /** `question.required` is truthy: an absent flag means not required. */
  predicate IsRequired(q: Question) {
    q.required == Some(true)
  }

  /**
   * `params?.map((option, index) => ({value: index.toString(), label: option})) || []`:
   * the options of a choice question, each identified by its position.
   */
  function ChoiceOptions(params: Option<seq<string>>): (r: seq<(string, string)>)
    ensures params.None? ==> r == []
    ensures params.Some? ==> |r| == |params.value|
  {
    var labels := params.GetOr([]);
    seq(|labels|, i requires 0 <= i < |labels| => (IndexString(i), labels[i]))
  }

  /**
   * The property names every array answers to besides its indices: its
   * own `length` and the members it inherits from `Array.prototype` and
   * `Object.prototype` (ECMAScript 2023).
   */
  const ArrayMembers: set<string> := {
    "length", "constructor", "at", "concat", "copyWithin", "entries", "every",
    "fill", "filter", "find", "findIndex", "findLast", "findLastIndex", "flat",
    "flatMap", "forEach", "includes", "indexOf", "join", "keys", "lastIndexOf",
    "map", "pop", "push", "reduce", "reduceRight", "reverse", "shift", "slice",
    "some", "sort", "splice", "toLocaleString", "toReversed", "toSorted",
    "toSpliced", "toString", "unshift", "values", "with", "hasOwnProperty",
    "isPrototypeOf", "propertyIsEnumerable", "valueOf", "__proto__",
    "__defineGetter__", "__defineSetter__", "__lookupGetter__", "__lookupSetter__"
  }

  /**
   * `_.get(params, [key], '')`: the label at the position the key denotes,
   * the option count for `length`, and `''` when there is no list or the
   * key is neither. `_.get` also reads the inherited members; those are
   * functions and objects, which have no label and are given as `''`.
   */
  function ResolveLabel(params: Option<seq<string>>, key: string): (r: string)
    ensures params.Some? && key == "length" ==> r == IndexString(|params.value|)
    ensures r != "" && key != "length" ==> params.Some? && r in params.value
  {
    match params
    case None => ""
    case Some(labels) =>
      if key == "length" then IndexString(|labels|)
      else
        match ParseIndex(key)
        case Some(i) => if i < |labels| then labels[i] else ""
        case None => ""
  }

  /** Option identity: every option's recorded value resolves to that option's label. */
  lemma ChoiceOptionResolves(params: Option<seq<string>>, i: nat)
    requires i < |ChoiceOptions(params)|
    ensures ResolveLabel(params, ChoiceOptions(params)[i].0) == ChoiceOptions(params)[i].1
    ensures ChoiceOptions(params)[i] == (IndexString(i), params.value[i])
  {
    ParseIndexString(i);
  }

  /**
   * A key that is neither a decimal index nor a property name of arrays,
   * such as an ordinary option label, resolves to `''`.
   */
  lemma NonIndexResolvesEmpty(params: Option<seq<string>>, key: string)
    requires !Canonical(key) && key !in ArrayMembers
    ensures ResolveLabel(params, key) == ""
  {
  }

  /** `_.get(cities, [province], undefined)` for a province that may be missing from the answer. */
  function Province(cities: Obj<City>, p: Option<string>): Option<City> {
    if p.None? then None else Get(cities, p.value)
  }

  function District(cities: Obj<City>, p: Option<string>, d: Option<string>): Option<City> {
    match Province(cities, p)
    case None => None
    case Some(c) => if d.None? || c.districts.None? then None else Get(c.districts.value, d.value)
  }

  function Ward(cities: Obj<City>, p: Option<string>, d: Option<string>, w: Option<string>): Option<City> {
    match District(cities, p, d)
    case None => None
    case Some(c) => if w.None? || c.wards.None? then None else Get(c.wards.value, w.value)
  }

  /** `_.get(..., [..., 'name'], '')`. */
  function NameOr(c: Option<City>): string {
    if c.Some? then c.value.name else ""
  }
}
