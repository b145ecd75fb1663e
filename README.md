# Rule schema and sidebar store of a header-modifier browser extension

This project models the two pieces of logic in the popup of a browser
extension that rewrites HTTP request headers by user-defined rules:

- **`Schemas`** (`schemas.dfy`) models the `Rule` record and `RuleSchema.parse`.
  A rule has an `active` flag, an optional `name`, a list of `{active, key, value}`
  headers and a `matchConfig`. The `matchConfig` holds a two-valued
  `matchMode`, `urlFilter`, `urlRegexp`, `domains`, `methods` and
  `resourceTypes`. The parser takes an untyped JavaScript value (`Value`). It
  either returns a complete `Rule` or fails with every issue it found, each
  at the path of the offending field. It follows the schema library's
  semantics:
  - an undefined field takes its declared default, which is then parsed;
  - an optional field may be undefined;
  - a present field of the wrong type is an issue;
  - arrays and objects collect the issues of all their parts in order;
  - undeclared keys are dropped.
- **`Sidebar`** (`sidebar.dfy`) models the sidebar's state transitions as the
  class `RuleStore`. Its fields are the ordered rule `list`, the
  `currentRuleIndex` and the `globalActive` switch. It has one method per
  handler:
  - select an entry;
  - toggle an entry's `active` flag;
  - add a rule, which parses a seed, puts the new rule first and selects it;
  - delete the current rule, with `Array.prototype.splice` semantics;
  - set the global switch;
  - the self-healing effect, which selects rule 0 when the index names no
    rule.

  The module also has the two label expressions the sidebar renders.

The lists of all request methods and all resource types, which are the defaults
of `methods` and `resourceTypes`, come from a constants file that is not part of
this model. They are declared as constants with no value (`AvailableMethods`,
`AvailableResourceTypes`), so every property holds for any contents.

Three behaviours of the handlers matter here:

- The add handler seeds the schema with `{matchConfig: {regexp: ""}}`
  (packages/popup/src/components/Sidebar.tsx:75-79).
  `regexp` is not a schema key, so it is dropped, and every field of the new
  rule takes its default (`AddSeedParses`).
- Delete with an index at or past the end of the list leaves the list
  unchanged (`splice` semantics).
- Neither delete nor anything else re-points the index after a deletion,
  except the self-healing effect (`DeleteThenHeal`).

The current rule is read from a store module that is not part of this model. It
is assumed to be `list[currentRuleIndex]` when the index is in range and
nothing otherwise (`RuleAt`, `RuleStore.CurrentRule`).

## Model

| member | source | states |
|---|---|---|
| `Schemas.OrDefault` | packages/shared/schemas.ts:5 | `.default(d)`: an undefined input becomes `d`; any other input, including `null`, is passed on unchanged |
| `Schemas.ParseBoolean` | packages/shared/schemas.ts:10 | `z.boolean()` accepts exactly boolean values and returns them; otherwise fails with at least one issue |
| `Schemas.ParseString` | packages/shared/schemas.ts:11-12 | `z.string()` accepts exactly strings and returns them; otherwise fails with at least one issue |
| `Schemas.ParseOptionalString` | packages/shared/schemas.ts:6 | the optional name: undefined gives none, a string is kept as given, anything else fails |
| `Schemas.ParseMatchMode` | packages/shared/schemas.ts:17 | the enum accepts exactly the strings "urlFilter" and "urlRegexp", and yields `UrlRegexp` exactly for "urlRegexp" |
| `Schemas.ParseEach` | packages/shared/schemas.ts:7-15 | a successful array parse yields one element per input item; `EachOkIff`, `EachIssuesContain` and `EachEncoded` carry the rest |
| `Schemas.ParseArray` | packages/shared/schemas.ts:20-22 | `z.array(e)`: success only on an array, with one element per item; anything else fails with at least one issue |
| `Schemas.ParseHeader` | packages/shared/schemas.ts:9-13 | a header entry parses exactly when it is an object with a boolean `active` and string `key` and `value`, keeps those three as given, and otherwise fails with at least one issue |
| `Schemas.ParseMatchConfig` | packages/shared/schemas.ts:16-23 | only an object parses; absent `matchMode`, `urlFilter`, `urlRegexp` and `domains` default to urlFilter, "", "" and none; `MatchConfigOkIff` and `MatchConfigFieldsKept` carry the rest |
| `Schemas.ParseRule` | packages/shared/schemas.ts:4-24 | `RuleSchema.parse`: a non-object fails with a root-level issue; success needs `matchConfig`; absent `active` gives true and absent headers none; `ParseRuleOkIff`, `RuleRoundTrip`, `AbsentFieldsDefault` and `PresentFieldsKept` carry the rest |
| `Schemas.EachOkIff` | packages/shared/schemas.ts:7-15 | an array parses if and only if every element parses at its own index path, and element `i` of the result is element `i`'s parse |
| `Schemas.EachIssuesContain` | packages/shared/schemas.ts:7-15 | every issue of a failing element is reported by the array |
| `Schemas.EachErrHasIssues` | packages/shared/schemas.ts:7-15 | an array fails only with a non-empty issue list, given that its elements do |
| `Schemas.EachEncoded` | packages/shared/schemas.ts:7-15 | an array of encoded elements parses back to exactly those elements |
| `Schemas.StringsRoundTrip` | packages/shared/schemas.ts:20-22 | a string array parses back to the same strings |
| `Schemas.HeadersRoundTrip` | packages/shared/schemas.ts:7-15 | a header list, seen as a value, parses back to itself |
| `Schemas.MatchConfigRoundTrip` | packages/shared/schemas.ts:16-23 | a match config, seen as a value, parses back to itself |
| `Schemas.RuleRoundTrip` | packages/shared/schemas.ts:4-24 | every complete rule, seen as a value, parses back to itself |
| `Schemas.ParseIdempotent` | packages/shared/schemas.ts:4-24 | parsing the output of a successful parse succeeds and returns the same rule |
| `Schemas.StringArrayOkIff` | packages/shared/schemas.ts:20 | a string array parses if and only if it is an array of strings |
| `Schemas.HeaderArrayOkIff` | packages/shared/schemas.ts:7-15 | the headers parse if and only if they are an array of objects each with a boolean `active` and string `key` and `value` |
| `Schemas.MatchConfigOkIff` | packages/shared/schemas.ts:16-23 | a match config parses if and only if it is an object whose present fields have their declared types and whose `matchMode` is one of the two options |
| `Schemas.ParseRuleOkIff` | packages/shared/schemas.ts:4-24 | `RuleSchema.parse` succeeds if and only if the input is an object, its present fields are well typed and `matchConfig` is present and valid |
| `Schemas.StringArrayErrHasIssues` | packages/shared/schemas.ts:20-22 | a failing string array reports at least one issue |
| `Schemas.HeaderArrayErrHasIssues` | packages/shared/schemas.ts:7-15 | a failing header list reports at least one issue |
| `Schemas.MatchConfigErrHasIssues` | packages/shared/schemas.ts:16-23 | a failing match config reports at least one issue |
| `Schemas.ParseRuleErrHasIssues` | packages/shared/schemas.ts:4-24 | a failing parse reports at least one issue |
| `Schemas.AbsentFieldsDefault` | packages/shared/schemas.ts:4-24 | absent fields take their defaults: `active` true, headers empty, `matchMode` urlFilter, both patterns "", domains empty, methods and resource types the full lists; an absent name stays absent, and only an absent name is absent |
| `Schemas.StringArrayKept` | packages/shared/schemas.ts:20-22 | a string array that parses is exactly the array of the strings it yields |
| `Schemas.MatchConfigFieldsKept` | packages/shared/schemas.ts:16-23 | present, well-typed match-config fields are kept as given; the mode is `UrlRegexp` exactly when the input says "urlRegexp" |
| `Schemas.PresentFieldsKept` | packages/shared/schemas.ts:4-24 | present `active`, `name` and header entries are kept as given, and `matchConfig` is the parse of the given object |
| `Schemas.MissingMatchConfigFails` | packages/shared/schemas.ts:16 | without `matchConfig` the parse fails, with an issue at `matchConfig` saying an object was expected and undefined received |
| `Schemas.MissingHeaderFieldFails` | packages/shared/schemas.ts:9-13 | a header entry lacking `active`, `key` or `value` makes the parse fail, with an issue at `headers`, the entry's index and that key |
| `Schemas.InvalidMatchModeFails` | packages/shared/schemas.ts:17 | a `matchMode` string other than the two options makes the parse fail with an invalid-enum-value issue at its path |
| `Schemas.MistypedMatchModeFails` | packages/shared/schemas.ts:17 | a present `matchMode` that is not a string makes the parse fail with an invalid-type issue at its path |
| `Schemas.UnknownRuleKeyIgnored` | packages/shared/schemas.ts:4 | adding an undeclared key to the rule object does not change the parse result |
| `Schemas.UnknownMatchConfigKeyIgnored` | packages/shared/schemas.ts:16 | adding an undeclared key to `matchConfig` does not change its parse result |
| `Schemas.UnknownHeaderKeyIgnored` | packages/shared/schemas.ts:9 | adding an undeclared key to a header entry does not change its parse result |
| `Sidebar.DisplayName` | packages/popup/src/components/Sidebar.tsx:50 | the shown name is never empty; it is the name when one is present and non-empty, and otherwise "Untitled" |
| `Sidebar.ActivePattern` | packages/popup/src/components/Sidebar.tsx:54 | the title is the pattern the match mode selects: the regexp exactly in regexp mode (when the two differ) |
| `Sidebar.MatchLabel` | packages/popup/src/components/Sidebar.tsx:56 | the match text is never empty; it is the selected pattern when that is non-empty, and otherwise "(Match all)" |
| `Sidebar.RuleAt` | packages/popup/src/components/Sidebar.tsx:120 | the assumed current-rule lookup: a rule exactly when the index is in range, and then the rule at that index |
| `Sidebar.Splice1` | packages/popup/src/components/Sidebar.tsx:89 | `splice(i, 1)` removes exactly element `i`: one shorter, earlier elements in place, later ones shifted down by one, same multiset less that element; past the end, nothing changes |
| `Sidebar.HealedIndex` | packages/popup/src/components/Sidebar.tsx:124-128 | the healed index is the old index or 0; it names a rule whenever the list is non-empty; a valid index, or any index into an empty list, is left alone |
| `Sidebar.HealIdempotent` | packages/popup/src/components/Sidebar.tsx:124-128 | healing twice is the same as healing once |
| `Sidebar.DeleteThenHeal` | packages/popup/src/components/Sidebar.tsx:86-92 | after deleting the current rule and healing, the index names the following rule; if the last of several rules was deleted, it names the first; deleting the only rule empties the list |
| `Sidebar.AddSeedParses` | packages/popup/src/components/Sidebar.tsx:74-80 | the add handler's seed parses, to a rule with `active` true, no name, no headers, urlFilter mode, empty patterns and domains, and the full method and resource-type lists |
| `Sidebar.AddSeed` | packages/popup/src/components/Sidebar.tsx:75-79 | the seed is an object whose only schema field is `matchConfig`, and that object sets none of the match-config fields |
| `Sidebar.RuleStore.CurrentRule` | packages/popup/src/components/Sidebar.tsx:120 | the current rule exists exactly when the index is in range, and is then the rule at that index |
| `Sidebar.RuleStore.Select` | packages/popup/src/components/Sidebar.tsx:31 | the index becomes the clicked one; list and switch unchanged |
| `Sidebar.RuleStore.ToggleActive` | packages/popup/src/components/Sidebar.tsx:43-47 | exactly `list[i].active` flips; the rule's other fields, all other rules, the length, the index and the switch are unchanged |
| `Sidebar.RuleStore.Add` | packages/popup/src/components/Sidebar.tsx:72-83 | the list grows by one; element 0 is the parsed seed; old element `k` is now at `k + 1`; the index becomes 0; the switch is unchanged |
| `Sidebar.RuleStore.Delete` | packages/popup/src/components/Sidebar.tsx:87-91 | the list becomes `splice(currentRuleIndex, 1)` of the old list; index and switch unchanged |
| `Sidebar.RuleStore.OnAction` | packages/popup/src/components/Sidebar.tsx:69-97 | "add" adds, "delete" deletes, any other key changes nothing; the switch is never touched |
| `Sidebar.RuleStore.SetGlobalActive` | packages/popup/src/components/Sidebar.tsx:104 | the switch is overwritten; list and index unchanged |
| `Sidebar.RuleStore.HealIndex` | packages/popup/src/components/Sidebar.tsx:124-128 | the index becomes the healed index, so a non-empty list always has a current rule afterwards; list and switch unchanged |

## Left out

- Rendering: JSX, class names, icons and the switch and action-group widgets are presentation.
- The reactive framework: the state atoms, hooks, the scheduling of the layout effect and the copy-on-write proxy mechanics. Each handler is one atomic update of the store's fields, and the self-healing effect is a method to be called after any change.
- The store module (`../store`), which holds the state atoms and the current-rule selector, is not part of this model. The current rule is the assumed in-range lookup `RuleAt`.
- The constants file (`./const`) is not part of this model. The default method and resource-type lists are abstract constants.
- The schema library beyond what this schema uses. Not modelled: issue message texts, JavaScript value kinds other than undefined, null, boolean, number, string, array and plain object, and the `__proto__` key.
- Numbers carry an integer instead of a double, because the schema only looks at a number's type. NaN, which the library reports as a kind of its own, is not represented.
- A name given explicitly as `undefined` is kept as an own key in the library's output object. The model does not tell that apart from an absent name: both are `None`.
- Sidebar.RuleStore.ToggleActive: requires an in-range index. The handler is only bound to indices that enumerate the list; with any other index the source would throw a type error.
- Negative indices to `splice` are not modelled. The index is a `nat`, because its type comes from the store module.
- Persistence and the request-matching engine, which are not present in the source.
