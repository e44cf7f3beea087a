/**
 * The two pure pieces of psan/annotate.py: the decision a reviewer's form
 * submission records (`set()`, lines 107-129, without the database) and the
 * human-readable label of an entity-type code (`show_candidate`, lines 84-89).
 */
module Decisions {
  import opened Wrappers

  /** AnnotationDecision: the state recorded for an annotated span. */
  datatype Decision = Undecided | Public | Secret | Rule | Nested

  /** RuleType: what a saved rule matches on. */
  datatype RuleType = WordType | NeType

  /**
   * The fields of AnnotateForm that `set()` reads, after validation. The
   * buttons are flags; `condition` is the word rule's condition, already
   * decoded from JSON, and `neType` the candidate's entity-type code.
   */
  datatype AnnotateForm = AnnotateForm(
    ctxPublic: bool,
    lemmaPublic: bool,
    lemmaSecret: bool,
    neTypePublic: bool,
    neTypeSecret: bool,
    condition: seq<string>,
    neType: string)

  /** A rule `set()` inserts (or whose decision it overwrites). */
  datatype NewRule = NewRule(kind: RuleType, condition: seq<string>, decision: Decision)

  /** What `set()` writes: the annotation's decision and the rule it refers to, if any. */
  datatype Verdict = Verdict(decision: Decision, rule: Option<NewRule>)

  /** One of the three "public" buttons was pressed. */
  predicate ChoosesPublic(f: AnnotateForm) {
    f.ctxPublic || f.lemmaPublic || f.neTypePublic
  }

  /** A button that generalises the decision into a rule was pressed. */
  predicate ChoosesRule(f: AnnotateForm) {
    f.lemmaPublic || f.lemmaSecret || f.neTypePublic || f.neTypeSecret
  }

  /**
   * The decision and rule chosen by a form submission: public exactly when a
   * public button was pressed, secret otherwise; a word rule takes precedence
   * over an entity-type rule; when a rule is made, the rule carries the
   * public/secret decision and the annotation itself records RULE.
   */
  function Decide(f: AnnotateForm): (v: Verdict)
    ensures v.rule.Some? <==> ChoosesRule(f)
    ensures v.rule.None? ==> (v.decision == Public <==> ChoosesPublic(f))
    ensures v.rule.None? ==> (v.decision == Secret <==> !ChoosesPublic(f))
    ensures v.rule.Some? ==> v.decision == Rule
    ensures v.rule.Some? ==> (v.rule.value.decision == Public <==> ChoosesPublic(f))
    ensures v.rule.Some? ==> (v.rule.value.decision == Secret <==> !ChoosesPublic(f))
    ensures v.rule.Some? ==> (v.rule.value.kind == WordType <==> f.lemmaPublic || f.lemmaSecret)
    ensures v.rule.Some? && v.rule.value.kind == WordType ==> v.rule.value.condition == f.condition
    ensures v.rule.Some? && v.rule.value.kind == NeType ==> v.rule.value.condition == [f.neType]
  {
    var decision := if ChoosesPublic(f) then Public else Secret;
    var rule :=
      if f.lemmaPublic || f.lemmaSecret then Some(NewRule(WordType, f.condition, decision))
      else if f.neTypePublic || f.neTypeSecret then Some(NewRule(NeType, [f.neType], decision))
      else None;
    if rule.Some? then Verdict(Rule, rule) else Verdict(decision, None)
  }

  /** NE_CODES: the descriptions of the named-entity type codes. */
  const NE_CODES: map<string, string> := map[
    "ah" := "street numbers", "at" := "phone/fax numbers", "az" := "zip codes",
    "gc" := "states", "gh" := "hydronyms", "gl" := "nature areas / objects", "gq" := "urban parts",
    "gr" := "territorial names", "gs" := "streets, squares", "gt" := "continents", "gu" := "cities/towns",
    "g_" := "underspecified geographical name", "ia" := "conferences/contests",
    "ic" := "cult./educ./scient. inst.", "if" := "companies, concerns...",
    "io" := "government/political inst.", "i_" := "underspecified institutions",
    "me" := "email address", "mi" := "internet links", "mn" := "periodical",
    "ms" := "radio and TV stations", "na" := "age", "nb" := "vol./page/chap./sec./fig. numbers",
    "nc" := "cardinal numbers", "ni" := "itemizer", "no" := "ordinal numbers", "ns" := "sport score",
    "n_" := "underspecified number expression", "oa" := "cultural artifacts (books, movies)",
    "oe" := "measure units", "om" := "currency units", "op" := "products",
    "or" := "directives, norms", "o_" := "underspecified artifact name", "pc" := "inhabitant names",
    "pd" := "(academic) titles", "pf" := "first names", "pm" := "second names",
    "pp" := "relig./myth persons", "ps" := "surnames", "p_" := "underspecified personal name",
    "td" := "days", "tf" := "feasts", "th" := "hours", "tm" := "months", "ty" := "years"]

  /** The label and the code `show_candidate` displays for an entity type. */
  datatype EntityLabel = EntityLabel(description: string, code: string)

  /**
   * A known code is described by its NE_CODES entry; an unknown code is
   * shown as itself; a missing (None) or empty code gives empty strings. The
   * code displayed is always the raw code, or "" when there is none.
   */
  function EntityTypeLabel(code: Option<string>): (r: EntityLabel)
    ensures r.code == code.GetOr("")
    ensures code.Some? && code.value in NE_CODES ==> r.description == NE_CODES[code.value]
    ensures !(code.Some? && code.value in NE_CODES) ==> r.description == r.code
  {
    match code
    case Some(c) => if c in NE_CODES then EntityLabel(NE_CODES[c], c) else EntityLabel(c, c)
    case None => EntityLabel("", "")
  }
}
