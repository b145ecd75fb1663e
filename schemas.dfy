/**
 The rule record of the header modifier and the schema that validates it
 (packages/shared/schemas.ts).

 `RuleSchema.parse` receives an untyped JavaScript value. It either returns a
 complete `Rule`, with every absent defaulted field filled in, or it fails with
 the list of every issue it found, each at the path of the offending field.
 The parser below follows the schema combinators the source uses:
 - `z.boolean()`, `z.string()`, `z.enum([...])` check the type of one value;
 - `.default(d)` replaces an undefined value by `d` and then parses it;
 - `.optional()` accepts undefined as "absent";
 - `z.array(e)` checks every element, `z.object({...})` every declared key,
   and both collect the issues of all their parts in order;
 - keys that the object schema does not declare are dropped.
 */
module Schemas {

  datatype Option<+T> = None | Some(value: T)

  /** The JavaScript values the parser can be handed. A key missing from an
      object reads as `Undefined`. Only the type of a number matters to this
      schema, so numbers carry an integer. */
  datatype Value =
    | Undefined
    | Null
    | Boolean(b: bool)
    | Number(n: int)
    | Str(text: string)
    | Arr(items: seq<Value>)
    | Obj(fields: map<string, Value>)

  /** The type names the schema library reports in its issues. */
  datatype Kind =
    | UndefinedKind | NullKind | BooleanKind | NumberKind | StringKind | ArrayKind | ObjectKind

  function KindOf(v: Value): Kind {
    match v
    case Undefined => UndefinedKind
    case Null => NullKind
    case Boolean(_) => BooleanKind
    case Number(_) => NumberKind
    case Str(_) => StringKind
    case Arr(_) => ArrayKind
    case Obj(_) => ObjectKind
  }

  /** Where an issue was found: a chain of object keys and array indices. */
  datatype PathSegment = Key(name: string) | Index(i: nat)
  type Path = seq<PathSegment>

  datatype Expected = Is(kind: Kind) | OneOf(options: seq<string>)

  datatype IssueCode =
    | InvalidType(expected: Expected, received: Kind)
    | InvalidEnumValue(value: string, options: seq<string>)

  datatype Issue = Issue(path: Path, code: IssueCode)

  /** The outcome of a parse: the value, or every issue found. */
  datatype Result<+T> = Ok(value: T) | Err(issues: seq<Issue>)

  function IssuesOf<T>(r: Result<T>): seq<Issue> {
    if r.Ok? then [] else r.issues
  }

  // ---------------------------------------------------------------------------
  // The rule record (the schema's inferred type)
  // ---------------------------------------------------------------------------

  datatype Header = Header(active: bool, key: string, value: string)

  datatype MatchMode = UrlFilter | UrlRegexp

  datatype MatchConfig = MatchConfig(
    matchMode: MatchMode,
    urlFilter: string,
    urlRegexp: string,
    domains: seq<string>,
    methods: seq<string>,
    resourceTypes: seq<string>)

  datatype Rule = Rule(
    active: bool,
    name: Option<string>,
    headers: seq<Header>,
    matchConfig: MatchConfig)

  /** The full list of supported request methods; its contents live in a
      constants file that is not part of this model. */
  const AvailableMethods: seq<string>
  /** The full list of supported resource types; likewise left abstract. */
  const AvailableResourceTypes: seq<string>

  const MatchModeOptions: seq<string> := ["urlFilter", "urlRegexp"]

  /** The keys the rule schema and its match-config schema declare. */
  const RuleKeys: set<string> := {"active", "name", "headers", "matchConfig"}
  const MatchConfigKeys: set<string> :=
    {"matchMode", "urlFilter", "urlRegexp", "domains", "methods", "resourceTypes"}
  const HeaderKeys: set<string> := {"active", "key", "value"}

  // ---------------------------------------------------------------------------
  // Schema combinators
  // ---------------------------------------------------------------------------

  /** Property access on a plain object. */
  function Field(m: map<string, Value>, key: string): (v: Value)
    ensures key !in m ==> v.Undefined?
  {
    if key in m then m[key] else Undefined
  }

  /** `.default(d)`: an undefined input is replaced by `d` before parsing. */
  function OrDefault(v: Value, d: Value): (w: Value)
    ensures v.Undefined? ==> w == d
    ensures !v.Undefined? ==> w == v
  {
    if v.Undefined? then d else v
  }

  function TypeIssue<T>(v: Value, expected: Kind, path: Path): Result<T> {
    Err([Issue(path, InvalidType(Is(expected), KindOf(v)))])
  }

  /** `z.boolean()` */
  function ParseBoolean(v: Value, path: Path): (r: Result<bool>)
    ensures r.Ok? <==> v.Boolean?
    ensures r.Ok? ==> r.value == v.b
    ensures r.Err? ==> r.issues != []
  {
    match v
    case Boolean(b) => Ok(b)
    case _ => TypeIssue(v, BooleanKind, path)
  }

  /** `z.string()` */
  function ParseString(v: Value, path: Path): (r: Result<string>)
    ensures r.Ok? <==> v.Str?
    ensures r.Ok? ==> r.value == v.text
    ensures r.Err? ==> r.issues != []
  {
    match v
    case Str(s) => Ok(s)
    case _ => TypeIssue(v, StringKind, path)
  }

  /** `.optional()` around `z.string()` */
  function ParseOptionalString(v: Value, path: Path): (r: Result<Option<string>>)
    ensures r.Ok? <==> v.Undefined? || v.Str?
    ensures r.Ok? ==> (r.value.None? <==> v.Undefined?)
    ensures r.Ok? && v.Str? ==> r.value == Some(v.text)
    ensures r.Err? ==> r.issues != []
  {
    if v.Undefined? then Ok(None)
    else
      var s := ParseString(v, path);
      if s.Ok? then Ok(Some(s.value)) else Err(s.issues)
  }

  /** The elements of an array, each checked by `elem` at its own index; the
      issues of all elements are collected in index order. */
  function ParseEach<T>(items: seq<Value>, path: Path, elem: (Value, Path) -> Result<T>): (r: Result<seq<T>>)
    ensures r.Ok? ==> |r.value| == |items|
    decreases |items|
  {
    if items == [] then Ok([])
    else
      var n := |items| - 1;
      var init := ParseEach(items[..n], path, elem);
      var last := elem(items[n], path + [Index(n)]);
      if init.Ok? && last.Ok? then Ok(init.value + [last.value])
      else Err(IssuesOf(init) + IssuesOf(last))
  }

  /** `z.array(elem)` */
  function ParseArray<T>(v: Value, path: Path, elem: (Value, Path) -> Result<T>): (r: Result<seq<T>>)
    ensures r.Ok? ==> v.Arr? && |r.value| == |v.items|
    ensures !v.Arr? ==> r.Err? && r.issues != []
  {
    match v
    case Arr(items) => ParseEach(items, path, elem)
    case _ => TypeIssue(v, ArrayKind, path)
  }

  /** The header entry `z.object({active, key, value})`: no field has a default. */
  function ParseHeader(v: Value, path: Path): (r: Result<Header>)
    ensures r.Ok? <==> IsHeader(v)
    ensures r.Ok? ==> HeaderKept(v, r.value)
    ensures r.Err? ==> r.issues != []
  {
    match v
    case Obj(m) =>
      var active := ParseBoolean(Field(m, "active"), path + [Key("active")]);
      var key := ParseString(Field(m, "key"), path + [Key("key")]);
      var value := ParseString(Field(m, "value"), path + [Key("value")]);
      if active.Ok? && key.Ok? && value.Ok? then
        Ok(Header(active.value, key.value, value.value))
      else
        Err(IssuesOf(active) + IssuesOf(key) + IssuesOf(value))
    case _ => TypeIssue(v, ObjectKind, path)
  }

  /** `z.enum(["urlFilter", "urlRegexp"])` */
  function ParseMatchMode(v: Value, path: Path): (r: Result<MatchMode>)
    ensures r.Ok? <==> v.Str? && v.text in MatchModeOptions
    ensures r.Ok? ==> (r.value == UrlRegexp <==> v.text == "urlRegexp")
    ensures r.Err? ==> r.issues != []
  {
    match v
    case Str(s) =>
      if s == "urlFilter" then Ok(UrlFilter)
      else if s == "urlRegexp" then Ok(UrlRegexp)
      else Err([Issue(path, InvalidEnumValue(s, MatchModeOptions))])
    case _ => Err([Issue(path, InvalidType(OneOf(MatchModeOptions), KindOf(v)))])
  }

  /** The `matchConfig` object: every field has a default. */
  function ParseMatchConfig(v: Value, path: Path): (r: Result<MatchConfig>)
    ensures !v.Obj? ==> r.Err? && r.issues != []
    ensures r.Ok? ==> && (Field(v.fields, "matchMode").Undefined? ==> r.value.matchMode == UrlFilter)
                      && (Field(v.fields, "urlFilter").Undefined? ==> r.value.urlFilter == "")
                      && (Field(v.fields, "urlRegexp").Undefined? ==> r.value.urlRegexp == "")
                      && (Field(v.fields, "domains").Undefined? ==> r.value.domains == [])
  {
    match v
    case Obj(m) =>
      var mode := ParseMatchMode(OrDefault(Field(m, "matchMode"), Str("urlFilter")), path + [Key("matchMode")]);
      var urlFilter := ParseString(OrDefault(Field(m, "urlFilter"), Str("")), path + [Key("urlFilter")]);
      var urlRegexp := ParseString(OrDefault(Field(m, "urlRegexp"), Str("")), path + [Key("urlRegexp")]);
      var domains := ParseArray(OrDefault(Field(m, "domains"), Arr([])), path + [Key("domains")], ParseString);
      var methods := ParseArray(OrDefault(Field(m, "methods"), StringsValue(AvailableMethods)),
                                path + [Key("methods")], ParseString);
      var resourceTypes := ParseArray(OrDefault(Field(m, "resourceTypes"), StringsValue(AvailableResourceTypes)),
                                      path + [Key("resourceTypes")], ParseString);
      if mode.Ok? && urlFilter.Ok? && urlRegexp.Ok? && domains.Ok? && methods.Ok? && resourceTypes.Ok? then
        Ok(MatchConfig(mode.value, urlFilter.value, urlRegexp.value, domains.value, methods.value, resourceTypes.value))
      else
        Err(IssuesOf(mode) + IssuesOf(urlFilter) + IssuesOf(urlRegexp)
            + IssuesOf(domains) + IssuesOf(methods) + IssuesOf(resourceTypes))
    case _ => TypeIssue(v, ObjectKind, path)
  }

  /** `RuleSchema.parse`. `matchConfig` is the one required field. */
  function ParseRule(v: Value): (r: Result<Rule>)
    ensures !v.Obj? ==> r == Err([Issue([], InvalidType(Is(ObjectKind), KindOf(v)))])
    ensures r.Ok? ==> v.Obj? && Field(v.fields, "matchConfig").Obj?
    ensures r.Ok? ==> (Field(v.fields, "active").Undefined? ==> r.value.active)
    ensures r.Ok? ==> (Field(v.fields, "headers").Undefined? ==> r.value.headers == [])
  {
    match v
    case Obj(m) =>
      var active := ParseBoolean(OrDefault(Field(m, "active"), Boolean(true)), [Key("active")]);
      var name := ParseOptionalString(Field(m, "name"), [Key("name")]);
      var headers := ParseArray(OrDefault(Field(m, "headers"), Arr([])), [Key("headers")], ParseHeader);
      var matchConfig := ParseMatchConfig(Field(m, "matchConfig"), [Key("matchConfig")]);
      if active.Ok? && name.Ok? && headers.Ok? && matchConfig.Ok? then
        Ok(Rule(active.value, name.value, headers.value, matchConfig.value))
      else
        Err(IssuesOf(active) + IssuesOf(name) + IssuesOf(headers) + IssuesOf(matchConfig))
    case _ => TypeIssue(v, ObjectKind, [])
  }

  // ---------------------------------------------------------------------------
  // The object a parsed rule is (what the parser returns, seen as a value)
  // ---------------------------------------------------------------------------

  function ArrayOf<X>(xs: seq<X>, enc: X -> Value): Value {
    Arr(seq(|xs|, i requires 0 <= i < |xs| => enc(xs[i])))
  }

  function StrValue(s: string): Value { Str(s) }

  function StringsValue(ss: seq<string>): Value { ArrayOf(ss, StrValue) }

  function HeaderValue(h: Header): Value {
    Obj(map["active" := Boolean(h.active), "key" := Str(h.key), "value" := Str(h.value)])
  }

  function MatchModeValue(mode: MatchMode): Value {
    match mode
    case UrlFilter => Str("urlFilter")
    case UrlRegexp => Str("urlRegexp")
  }

  function MatchConfigValue(mc: MatchConfig): Value {
    Obj(map[
      "matchMode" := MatchModeValue(mc.matchMode),
      "urlFilter" := Str(mc.urlFilter),
      "urlRegexp" := Str(mc.urlRegexp),
      "domains" := StringsValue(mc.domains),
      "methods" := StringsValue(mc.methods),
      "resourceTypes" := StringsValue(mc.resourceTypes)])
  }

  /** An absent name is an absent key, as in the parser's output object. */
  function RuleValue(r: Rule): Value {
    var m := map[
      "active" := Boolean(r.active),
      "headers" := ArrayOf(r.headers, HeaderValue),
      "matchConfig" := MatchConfigValue(r.matchConfig)];
    Obj(if r.name.Some? then m["name" := Str(r.name.value)] else m)
  }

  // ---------------------------------------------------------------------------
  // An independent statement of which inputs the schema accepts
  // ---------------------------------------------------------------------------

  predicate IsStringArray(v: Value) {
    v.Arr? && forall i :: 0 <= i < |v.items| ==> v.items[i].Str?
  }

  predicate IsHeader(v: Value) {
    && v.Obj?
    && Field(v.fields, "active").Boolean?
    && Field(v.fields, "key").Str?
    && Field(v.fields, "value").Str?
  }

  predicate IsHeaderArray(v: Value) {
    v.Arr? && forall i :: 0 <= i < |v.items| ==> IsHeader(v.items[i])
  }

  predicate IsMatchConfig(v: Value) {
    && v.Obj?
    && var m := v.fields;
    && (Field(m, "matchMode").Undefined? || (Field(m, "matchMode").Str? && Field(m, "matchMode").text in MatchModeOptions))
    && (Field(m, "urlFilter").Undefined? || Field(m, "urlFilter").Str?)
    && (Field(m, "urlRegexp").Undefined? || Field(m, "urlRegexp").Str?)
    && (Field(m, "domains").Undefined? || IsStringArray(Field(m, "domains")))
    && (Field(m, "methods").Undefined? || IsStringArray(Field(m, "methods")))
    && (Field(m, "resourceTypes").Undefined? || IsStringArray(Field(m, "resourceTypes")))
  }

  /** An input the rule schema accepts: an object whose present fields all
      have the declared type and whose `matchConfig` is present. */
  predicate ConformsToRule(v: Value) {
    && v.Obj?
    && var m := v.fields;
    && (Field(m, "active").Undefined? || Field(m, "active").Boolean?)
    && (Field(m, "name").Undefined? || Field(m, "name").Str?)
    && (Field(m, "headers").Undefined? || IsHeaderArray(Field(m, "headers")))
    && IsMatchConfig(Field(m, "matchConfig"))
  }

  // ---------------------------------------------------------------------------
  // Arrays: an array parses exactly when every element does
  // ---------------------------------------------------------------------------

  lemma {:induction false} EachOkIff<T>(items: seq<Value>, path: Path, elem: (Value, Path) -> Result<T>)
    ensures ParseEach(items, path, elem).Ok? <==>
            forall i :: 0 <= i < |items| ==> elem(items[i], path + [Index(i)]).Ok?
    ensures ParseEach(items, path, elem).Ok? ==>
            forall i :: 0 <= i < |items| ==> ParseEach(items, path, elem).value[i] == elem(items[i], path + [Index(i)]).value
    decreases |items|
  {
    if items != [] {
      var n := |items| - 1;
      EachOkIff(items[..n], path, elem);
      assert forall i :: 0 <= i < n ==> items[..n][i] == items[i];
    }
  }

  /** Every issue of a failing element is an issue of the array. */
  lemma {:induction false} EachIssuesContain<T>(items: seq<Value>, path: Path, elem: (Value, Path) -> Result<T>, i: nat)
    requires i < |items|
    ensures forall x :: x in IssuesOf(elem(items[i], path + [Index(i)])) ==> x in IssuesOf(ParseEach(items, path, elem))
    decreases |items|
  {
    var n := |items| - 1;
    var init := ParseEach(items[..n], path, elem);
    var last := elem(items[n], path + [Index(n)]);
    if i < n {
      EachIssuesContain(items[..n], path, elem, i);
      assert items[..n][i] == items[i];
      if init.Err? {
        assert ParseEach(items, path, elem).issues == init.issues + IssuesOf(last);
      }
    } else if last.Err? {
      assert ParseEach(items, path, elem).issues == IssuesOf(init) + last.issues;
    }
  }

  /** An array fails only with at least one issue, given that its elements do. */
  lemma {:induction false} EachErrHasIssues<T>(items: seq<Value>, path: Path, elem: (Value, Path) -> Result<T>)
    requires forall v, p :: elem(v, p).Err? ==> elem(v, p).issues != []
    ensures ParseEach(items, path, elem).Err? ==> ParseEach(items, path, elem).issues != []
    decreases |items|
  {
    if items != [] {
      EachErrHasIssues(items[..|items| - 1], path, elem);
    }
  }

  /** An array of encoded elements parses back to the elements. */
  lemma {:induction false} EachEncoded<X>(xs: seq<X>, enc: X -> Value, path: Path, elem: (Value, Path) -> Result<X>)
    requires forall x, p :: elem(enc(x), p) == Ok(x)
    ensures ParseEach(ArrayOf(xs, enc).items, path, elem) == Ok(xs)
    decreases |xs|
  {
    if xs != [] {
      var n := |xs| - 1;
      assert ArrayOf(xs, enc).items[..n] == ArrayOf(xs[..n], enc).items;
      EachEncoded(xs[..n], enc, path, elem);
      assert xs[..n] + [xs[n]] == xs;
    }
  }

  lemma StringsRoundTrip(ss: seq<string>, path: Path)
    ensures ParseArray(StringsValue(ss), path, ParseString) == Ok(ss)
  {
    EachEncoded(ss, StrValue, path, ParseString);
  }

  lemma HeadersRoundTrip(hs: seq<Header>, path: Path)
    ensures ParseArray(ArrayOf(hs, HeaderValue), path, ParseHeader) == Ok(hs)
  {
    forall h, p ensures ParseHeader(HeaderValue(h), p) == Ok(h) {
      var m := HeaderValue(h).fields;
      assert Field(m, "active") == Boolean(h.active);
      assert Field(m, "key") == Str(h.key);
      assert Field(m, "value") == Str(h.value);
    }
    EachEncoded(hs, HeaderValue, path, ParseHeader);
  }

  lemma MatchConfigRoundTrip(mc: MatchConfig, path: Path)
    ensures ParseMatchConfig(MatchConfigValue(mc), path) == Ok(mc)
  {
    var m := MatchConfigValue(mc).fields;
    assert Field(m, "matchMode") == MatchModeValue(mc.matchMode);
    assert Field(m, "urlFilter") == Str(mc.urlFilter);
    assert Field(m, "urlRegexp") == Str(mc.urlRegexp);
    assert Field(m, "domains") == StringsValue(mc.domains);
    assert Field(m, "methods") == StringsValue(mc.methods);
    assert Field(m, "resourceTypes") == StringsValue(mc.resourceTypes);
    StringsRoundTrip(mc.domains, path + [Key("domains")]);
    StringsRoundTrip(mc.methods, path + [Key("methods")]);
    StringsRoundTrip(mc.resourceTypes, path + [Key("resourceTypes")]);
  }

  // ---------------------------------------------------------------------------
  // Properties of RuleSchema.parse
  // ---------------------------------------------------------------------------

  /** A complete rule, seen as a value, parses back to itself. */
  lemma RuleRoundTrip(r: Rule)
    ensures ParseRule(RuleValue(r)) == Ok(r)
  {
    var m := RuleValue(r).fields;
    assert Field(m, "active") == Boolean(r.active);
    assert Field(m, "name") == if r.name.Some? then Str(r.name.value) else Undefined;
    assert Field(m, "headers") == ArrayOf(r.headers, HeaderValue);
    assert Field(m, "matchConfig") == MatchConfigValue(r.matchConfig);
    HeadersRoundTrip(r.headers, [Key("headers")]);
    MatchConfigRoundTrip(r.matchConfig, [Key("matchConfig")]);
  }

  /** Parsing is idempotent: parsing the output of a successful parse
      succeeds and returns the same rule. */
  lemma ParseIdempotent(v: Value)
    requires ParseRule(v).Ok?
    ensures ParseRule(RuleValue(ParseRule(v).value)) == ParseRule(v)
  {
    RuleRoundTrip(ParseRule(v).value);
  }

  lemma StringArrayOkIff(v: Value, path: Path)
    ensures ParseArray(v, path, ParseString).Ok? <==> IsStringArray(v)
  {
    if v.Arr? {
      EachOkIff(v.items, path, ParseString);
    }
  }

  lemma HeaderArrayOkIff(v: Value, path: Path)
    ensures ParseArray(v, path, ParseHeader).Ok? <==> IsHeaderArray(v)
  {
    if v.Arr? {
      EachOkIff(v.items, path, ParseHeader);
    }
  }

  lemma MatchConfigOkIff(v: Value, path: Path)
    ensures ParseMatchConfig(v, path).Ok? <==> IsMatchConfig(v)
  {
    if v.Obj? {
      var mc := v.fields;
      StringArrayOkIff(OrDefault(Field(mc, "domains"), Arr([])), path + [Key("domains")]);
      StringArrayOkIff(OrDefault(Field(mc, "methods"), StringsValue(AvailableMethods)), path + [Key("methods")]);
      StringArrayOkIff(OrDefault(Field(mc, "resourceTypes"), StringsValue(AvailableResourceTypes)),
                       path + [Key("resourceTypes")]);
      StringsRoundTrip(AvailableMethods, path + [Key("methods")]);
      StringsRoundTrip(AvailableResourceTypes, path + [Key("resourceTypes")]);
    }
  }

  /** The schema accepts exactly the inputs whose present fields are well
      typed and whose `matchConfig` is present. */
  lemma ParseRuleOkIff(v: Value)
    ensures ParseRule(v).Ok? <==> ConformsToRule(v)
  {
    if v.Obj? {
      var m := v.fields;
      HeaderArrayOkIff(OrDefault(Field(m, "headers"), Arr([])), [Key("headers")]);
      MatchConfigOkIff(Field(m, "matchConfig"), [Key("matchConfig")]);
    }
  }

  lemma StringArrayErrHasIssues(v: Value, path: Path)
    ensures ParseArray(v, path, ParseString).Err? ==> ParseArray(v, path, ParseString).issues != []
  {
    if v.Arr? {
      EachErrHasIssues(v.items, path, ParseString);
    }
  }

  lemma HeaderArrayErrHasIssues(v: Value, path: Path)
    ensures ParseArray(v, path, ParseHeader).Err? ==> ParseArray(v, path, ParseHeader).issues != []
  {
    if v.Arr? {
      forall x, p | ParseHeader(x, p).Err? ensures ParseHeader(x, p).issues != [] {
      }
      EachErrHasIssues(v.items, path, ParseHeader);
    }
  }

  lemma MatchConfigErrHasIssues(v: Value, path: Path)
    ensures ParseMatchConfig(v, path).Err? ==> ParseMatchConfig(v, path).issues != []
  {
    if v.Obj? {
      var mc := v.fields;
      StringArrayErrHasIssues(OrDefault(Field(mc, "domains"), Arr([])), path + [Key("domains")]);
      StringArrayErrHasIssues(OrDefault(Field(mc, "methods"), StringsValue(AvailableMethods)), path + [Key("methods")]);
      StringArrayErrHasIssues(OrDefault(Field(mc, "resourceTypes"), StringsValue(AvailableResourceTypes)),
                              path + [Key("resourceTypes")]);
    }
  }

  /** A failing parse reports at least one issue. */
  lemma ParseRuleErrHasIssues(v: Value)
    ensures ParseRule(v).Err? ==> ParseRule(v).issues != []
  {
    if v.Obj? {
      var m := v.fields;
      HeaderArrayErrHasIssues(OrDefault(Field(m, "headers"), Arr([])), [Key("headers")]);
      MatchConfigErrHasIssues(Field(m, "matchConfig"), [Key("matchConfig")]);
    }
  }

  /** Absent fields take their declared defaults; `name` has none and stays absent. */
  lemma AbsentFieldsDefault(m: map<string, Value>)
    requires ParseRule(Obj(m)).Ok?
    ensures var r := ParseRule(Obj(m)).value;
            && (Field(m, "active").Undefined? ==> r.active)
            && (Field(m, "name").Undefined? <==> r.name.None?)
            && (Field(m, "headers").Undefined? ==> r.headers == [])
    ensures var r := ParseRule(Obj(m)).value;
            var mc := Field(m, "matchConfig").fields;
            && (Field(mc, "matchMode").Undefined? ==> r.matchConfig.matchMode == UrlFilter)
            && (Field(mc, "urlFilter").Undefined? ==> r.matchConfig.urlFilter == "")
            && (Field(mc, "urlRegexp").Undefined? ==> r.matchConfig.urlRegexp == "")
            && (Field(mc, "domains").Undefined? ==> r.matchConfig.domains == [])
            && (Field(mc, "methods").Undefined? ==> r.matchConfig.methods == AvailableMethods)
            && (Field(mc, "resourceTypes").Undefined? ==> r.matchConfig.resourceTypes == AvailableResourceTypes)
  {
    var path := [Key("matchConfig")];
    StringsRoundTrip(AvailableMethods, path + [Key("methods")]);
    StringsRoundTrip(AvailableResourceTypes, path + [Key("resourceTypes")]);
  }

  /** A string array that parses is the array of the strings it yields. */
  lemma StringArrayKept(v: Value, path: Path)
    requires ParseArray(v, path, ParseString).Ok?
    ensures v == StringsValue(ParseArray(v, path, ParseString).value)
  {
    var ss := ParseArray(v, path, ParseString).value;
    EachOkIff(v.items, path, ParseString);
    forall i | 0 <= i < |v.items| ensures v.items[i] == StrValue(ss[i]) {
      assert ParseString(v.items[i], path + [Index(i)]).Ok?;
    }
    assert v.items == StringsValue(ss).items;
  }

  /** In `matchConfig`, present, well-typed fields are kept as given. */
  lemma MatchConfigFieldsKept(mc: map<string, Value>, path: Path)
    requires ParseMatchConfig(Obj(mc), path).Ok?
    ensures var c := ParseMatchConfig(Obj(mc), path).value;
            && (Field(mc, "matchMode") == Str("urlRegexp") <==> c.matchMode == UrlRegexp)
            && (Field(mc, "urlFilter").Str? ==> c.urlFilter == Field(mc, "urlFilter").text)
            && (Field(mc, "urlRegexp").Str? ==> c.urlRegexp == Field(mc, "urlRegexp").text)
            && (Field(mc, "domains").Arr? ==> Field(mc, "domains") == StringsValue(c.domains))
            && (Field(mc, "methods").Arr? ==> Field(mc, "methods") == StringsValue(c.methods))
            && (Field(mc, "resourceTypes").Arr? ==> Field(mc, "resourceTypes") == StringsValue(c.resourceTypes))
  {
    if Field(mc, "domains").Arr? {
      StringArrayKept(Field(mc, "domains"), path + [Key("domains")]);
    }
    if Field(mc, "methods").Arr? {
      StringArrayKept(Field(mc, "methods"), path + [Key("methods")]);
    }
    if Field(mc, "resourceTypes").Arr? {
      StringArrayKept(Field(mc, "resourceTypes"), path + [Key("resourceTypes")]);
    }
  }

  /** The entry `v` carries exactly the fields of header `h`. */
  predicate HeaderKept(v: Value, h: Header) {
    && v.Obj?
    && Field(v.fields, "active") == Boolean(h.active)
    && Field(v.fields, "key") == Str(h.key)
    && Field(v.fields, "value") == Str(h.value)
  }

  predicate HeadersKept(items: seq<Value>, hs: seq<Header>) {
    |items| == |hs| && forall i :: 0 <= i < |items| ==> HeaderKept(items[i], hs[i])
  }

  /** Present, well-typed fields of the rule are kept as given. */
  lemma PresentFieldsKept(m: map<string, Value>)
    requires ParseRule(Obj(m)).Ok?
    ensures var r := ParseRule(Obj(m)).value;
            && (Field(m, "active").Boolean? ==> r.active == Field(m, "active").b)
            && (Field(m, "name").Str? ==> r.name == Some(Field(m, "name").text))
            && (Field(m, "headers").Arr? ==> HeadersKept(Field(m, "headers").items, r.headers))
            && Field(m, "matchConfig").Obj?
            && ParseMatchConfig(Field(m, "matchConfig"), [Key("matchConfig")]) == Ok(r.matchConfig)
  {
    var r := ParseRule(Obj(m)).value;
    var h := Field(m, "headers");
    if h.Arr? {
      EachOkIff(h.items, [Key("headers")], ParseHeader);
      forall i | 0 <= i < |h.items| ensures HeaderKept(h.items[i], r.headers[i]) {
        assert ParseHeader(h.items[i], [Key("headers")] + [Index(i)]).Ok?;
      }
    }
  }

  /** `matchConfig` has no default: without it the parse fails, reporting
      the missing object at that key. */
  lemma MissingMatchConfigFails(m: map<string, Value>)
    requires Field(m, "matchConfig").Undefined?
    ensures ParseRule(Obj(m)).Err?
    ensures Issue([Key("matchConfig")], InvalidType(Is(ObjectKind), UndefinedKind)) in ParseRule(Obj(m)).issues
  {
  }

  /** A header entry lacking `active`, `key` or `value` makes the parse fail,
      with an issue at that entry's field. */
  lemma MissingHeaderFieldFails(m: map<string, Value>, i: nat, f: string)
    requires Field(m, "headers").Arr? && i < |Field(m, "headers").items|
    requires Field(m, "headers").items[i].Obj?
    requires f in HeaderKeys && Field(Field(m, "headers").items[i].fields, f).Undefined?
    ensures ParseRule(Obj(m)).Err?
    ensures var expected := if f == "active" then BooleanKind else StringKind;
            Issue([Key("headers"), Index(i), Key(f)], InvalidType(Is(expected), UndefinedKind))
              in ParseRule(Obj(m)).issues
  {
    var items := Field(m, "headers").items;
    var hpath: Path := [Key("headers")];
    var epath := hpath + [Index(i)];
    var expected := if f == "active" then BooleanKind else StringKind;
    var x := Issue([Key("headers"), Index(i), Key(f)], InvalidType(Is(expected), UndefinedKind));
    assert epath + [Key(f)] == [Key("headers"), Index(i), Key(f)];
    assert x in IssuesOf(ParseHeader(items[i], epath));
    EachIssuesContain(items, hpath, ParseHeader, i);
    var headers := ParseArray(Field(m, "headers"), hpath, ParseHeader);
    assert x in IssuesOf(headers);
  }

  /** A present `matchMode` that is a string outside the enumeration fails. */
  lemma InvalidMatchModeFails(m: map<string, Value>, s: string)
    requires Field(m, "matchConfig").Obj?
    requires Field(Field(m, "matchConfig").fields, "matchMode") == Str(s)
    requires s !in MatchModeOptions
    ensures ParseRule(Obj(m)).Err?
    ensures Issue([Key("matchConfig"), Key("matchMode")], InvalidEnumValue(s, MatchModeOptions))
              in ParseRule(Obj(m)).issues
  {
    var path: Path := [Key("matchConfig")];
    assert path + [Key("matchMode")] == [Key("matchConfig"), Key("matchMode")];
  }

  /** A present `matchMode` that is not a string fails. */
  lemma MistypedMatchModeFails(m: map<string, Value>)
    requires Field(m, "matchConfig").Obj?
    requires var mode := Field(Field(m, "matchConfig").fields, "matchMode");
             !mode.Undefined? && !mode.Str?
    ensures ParseRule(Obj(m)).Err?
    ensures var mode := Field(Field(m, "matchConfig").fields, "matchMode");
            Issue([Key("matchConfig"), Key("matchMode")], InvalidType(OneOf(MatchModeOptions), KindOf(mode)))
              in ParseRule(Obj(m)).issues
  {
    var path: Path := [Key("matchConfig")];
    assert path + [Key("matchMode")] == [Key("matchConfig"), Key("matchMode")];
  }

  /** Keys the rule schema does not declare are dropped: they change nothing. */
  lemma UnknownRuleKeyIgnored(m: map<string, Value>, k: string, x: Value)
    requires k !in RuleKeys
    ensures ParseRule(Obj(m[k := x])) == ParseRule(Obj(m))
  {
    var m' := m[k := x];
    forall key | key in RuleKeys ensures Field(m', key) == Field(m, key) { }
  }

  /** Likewise inside `matchConfig`. */
  lemma UnknownMatchConfigKeyIgnored(mc: map<string, Value>, k: string, x: Value, path: Path)
    requires k !in MatchConfigKeys
    ensures ParseMatchConfig(Obj(mc[k := x]), path) == ParseMatchConfig(Obj(mc), path)
  {
    var mc' := mc[k := x];
    forall key | key in MatchConfigKeys ensures Field(mc', key) == Field(mc, key) { }
  }

  /** Likewise inside a header entry. */
  lemma UnknownHeaderKeyIgnored(h: map<string, Value>, k: string, x: Value, path: Path)
    requires k !in HeaderKeys
    ensures ParseHeader(Obj(h[k := x]), path) == ParseHeader(Obj(h), path)
  {
    var h' := h[k := x];
    forall key | key in HeaderKeys ensures Field(h', key) == Field(h, key) { }
  }
}
