# grout JSONB filters and serializer fields in Dafny

grout stores records as PostgreSQL `jsonb` documents and filters them with a
query tree, a nested JSON object whose leaves are *rules*
(`{"_rule_type": "intrange", "min": 1, "max": 5}`,
`{"_rule_type": "containment", "contains": [...]}`,
`{"_rule_type": "containment_multiple", ...}`, each optionally with a
free-text `pattern`). `FilterTree` walks the tree and collects the rules
together with the path of keys that leads to each one. `sql()` then turns
them into one SQL template with `%s` placeholders and a flat tuple of
parameters, which Django and psycopg2 bind. The serializer fields pass JSONB
documents to and from the REST API. One of them rewrites a document key by
key through a method of its serializer.

The project has five modules:

- `Text` (`text.dfy`) holds the Python string machinery the core relies on:
  - `%` interpolation, which fails when placeholders and arguments do not match;
  - `str.join` and `[x] * n`;
  - `re.escape`;
  - a POSIX `shlex.split`;
  - decimal rendering of integers.
- `JsonValues` (`json.dfy`) holds decoded JSON values, with objects as
  ordered member lists (Python 3.7 dicts), Python truthiness, iteration, and
  `json.dumps` with its default settings.
- `Lookups` (`lookups.dfy`) models `grout/lookups.py`:
  - the traversal helpers and the object reconstruction templates;
  - the three rule generators and the text similarity filter;
  - `is_rule` and `get_rules`;
  - `sql()`, as a specification function `Compile` and as the imperative
    method `FilterTree.Sql`, which is proved equal to it.
- `SerializerFields` (`serializer_fields.dfy`) models `JsonBField` and
  `MethodTransformJsonField` of `grout/serializer_fields.py`.
- `Vectors` (`vectors.dfy`) evaluates the model on six of the worked
  examples of `tests/jsonb_field_testing/tests.py`: the two traversal
  helpers, the rules of the two-rule tree, `containment_filter` on
  `['a', 'b']`, `intrange_filter` with missing bounds, and `sql()` on a tree
  whose range rule has no bound.

The main theorem is `Lookups.SqlRenders`. Let `lit` be any rendering of a
parameter as SQL text; it stands for psycopg2's adaptation. Take a tree whose
column has no `%` and whose rules compile. Then binding the template of
`sql()` to its parameters succeeds, and the number of placeholders equals the
number of parameters. The bound text is the filter string built from the
bound rule fragments and pattern groups. Each fragment's bound form is stated
by `IntrangeRenders`, `ContainmentRenders` and `TextSimilarityRenders`. The
theorem needs the traversal of a one-element path to be the column itself.
As written, it is not (see Findings).

Where the docstrings and the code disagree, the model follows the code. The
docstrings of the filters say that a path is stored "from deepest to
shallowest" or "from leaf to root". The code instead treats `path[0]` as the
column and the remaining elements as keys from the root down
(`grout/lookups.py:68`, `:162`, `:339`). The model does the same.

## Model

| member | source | states |
|---|---|---|
| Lookups.TraversalBinds | grout/lookups.py:332-341 | binding a traversal to one argument per key gives the column, `->k` for each key but the last, the operator, and the last key |
| Lookups.TraversalPlaceholders | grout/lookups.py:320-341 | `extract_value_at_path` and `contains_key_at_path` leave exactly one placeholder per key of the path |
| Lookups.SingleElementTraversal | grout/lookups.py:339-341 | for a one-element path the code as written yields `op%s`, with one placeholder and no column, while the corrected traversal is the column |
| Lookups.ReconstructObjectBinds | grout/lookups.py:344-353 | filling `reconstruct_object(keys)` with the dumped keys and a dumped value gives exactly `json.dumps` of the value nested under the keys |
| Lookups.ReconstructObjectPlaceholders | grout/lookups.py:344-353 | the template has one placeholder per key plus one for the value |
| Lookups.ReconstructObjectMultipleBinds | grout/lookups.py:356-369 | same for `reconstruct_object_multiple`, where the level with two keys left wraps its object in a list |
| Lookups.ReconstructObjectMultiplePlaceholders | grout/lookups.py:356-369 | the multiple template has one placeholder per key plus one for the value |
| Lookups.Bound | grout/lookups.py:248-249 | a bound counts exactly when its key is present and not `None`, and then it is the rule's value under that key |
| Lookups.IntrangeLower | grout/lookups.py:247-266 | with only `min`, the bound fragment is `((T)::int >= min)` |
| Lookups.IntrangeUpper | grout/lookups.py:247-269 | with only `max`, the bound fragment is `((T)::int <= max)` |
| Lookups.IntrangeBetween | grout/lookups.py:247-272 | with both, the upper comparison comes first, joined by `AND`, and the keys are bound once per comparison |
| Lookups.IntrangeRenders | grout/lookups.py:247-274 | the filter is `None` exactly when neither bound is present; otherwise it binds to one of the three forms above |
| Lookups.ContainmentParams | grout/lookups.py:173-177 | one parameter per contained item, in order, each the dumped item nested under the branch keys |
| Lookups.ContainmentTemplateBinds | grout/lookups.py:164-177 | `template % interpolants` never fails and yields the nested literal |
| Lookups.CompileContainment | grout/lookups.py:162-184 | the imperative loop of `containment_filter` and `multiple_containment_filter` equals the specification `ContainmentFragment` |
| Lookups.RepeatedSlotsBind | grout/lookups.py:179 | `' OR '.join([c + '%s'] * n)` bound to n arguments gives the n alternatives in order |
| Lookups.ContainmentRenders | grout/lookups.py:162-228 | the error path is exactly a `contains` value that is not iterable; `None` is returned exactly when `contains` is absent or empty; otherwise the fragment binds to `(col @> lit1 OR ... )` over the items |
| Lookups.TextSlotBinds | grout/lookups.py:304-309 | the text-similarity template binds to the bound traversal followed by `::text ~*` and the pattern |
| Lookups.TextSimilarityRenders | grout/lookups.py:299-316 | the filter fails exactly when `path_multiple` has a one-element path; otherwise it binds to the traversal and the escaped regex; `re.escape` of the term matches the term literally; in the multiple case the regex starts with the escaped last key |
| Lookups.IsRule | grout/lookups.py:45-47 | an object is a rule exactly when `_rule_type` names a registered generator; the lookup raises exactly when that value is a list or a dict |
| Lookups.GetRules | grout/lookups.py:49-73 | `get_rules`: a non-object holds no rule, a rule object is returned with its path, and any other object is searched member by member; specified by the four lemmas below |
| Lookups.GetRulesMembers | grout/lookups.py:70-73 | the loop over `obj.items()`, concatenating what each member holds |
| Lookups.GetRulesSound | grout/lookups.py:62-73 | every rule `get_rules` returns is a rule object of a registered type that the tree really holds under its path, below objects that are not rules, and the path starts with the column |
| Lookups.GetRulesMembersSound | grout/lookups.py:70-73 | rules found in the members of an object lie strictly below it, under one of its members |
| Lookups.GetRulesComplete | grout/lookups.py:62-73 | every rule object of a registered type that the tree holds below objects that are not rules is returned, at the column followed by its keys |
| Lookups.GetRulesMembersComplete | grout/lookups.py:70-73 | a rule held under some member of an object is in the result of the member loop |
| Lookups.GetRulesExactly | grout/lookups.py:62-73 | both directions together: a located rule is returned exactly when the tree holds it there, below objects that are not rules |
| Lookups.GetRulesMembersInOrder | grout/lookups.py:70-73 | the result lists the rules under the first member, then those under the second, and so on, in member order |
| Lookups.RulesLocatable | grout/lookups.py:62-68 | every returned rule has a non-empty path and a registered type |
| Lookups.SetDefaultAppendFrags | grout/lookups.py:110 | `patterns.setdefault(term, []).append(f)` appends `f` to the term's list and leaves every other term's list unchanged |
| Lookups.SetDefaultAppendTerms | grout/lookups.py:110 | the dict gains no term other than the one set, and loses none |
| Lookups.SetDefaultAppendKeys | grout/lookups.py:110 | the keys keep insertion order, and a new term goes at the end |
| Lookups.SetDefaultAppendDistinct | grout/lookups.py:110 | the dict never holds a term twice |
| Lookups.SetDefaultAppendNonEmpty | grout/lookups.py:110 | every list in the dict is non-empty |
| Lookups.GroupByTermSpec | grout/lookups.py:104-110 | after the loop, each term's list holds exactly the fragments made for that term, in order; the terms are distinct and come from the entries |
| Lookups.FragsForDistinct | grout/lookups.py:114-120 | iterating `patterns.values()` visits each term's own list |
| Lookups.JoinFragmentsRender | grout/lookups.py:112 | binding `' AND '.join` of fragment templates to the concatenated parameters gives the join of the bound fragments |
| Lookups.FilterBothRender | grout/lookups.py:125-126 | binding commutes with the two-part filter string |
| Lookups.FilterOneRender | grout/lookups.py:127-128 | binding commutes with the one-part filter string |
| Lookups.FilterStringRender | grout/lookups.py:125-130 | binding commutes with `filter_string` in all three cases |
| Lookups.GroupFragmentsRender | grout/lookups.py:118-120 | each group's `' OR '.join` binds to the join of its bound fragments |
| Lookups.PatternStringRender | grout/lookups.py:123 | binding commutes with `'(' + ') AND ('.join(pattern_strings) + ')'` |
| Lookups.AssembleRenders | grout/lookups.py:112-138 | the assembled template binds to the filter string of the bound parts, rule fragments first and then the pattern groups in key order |
| Lookups.GenerateReady | grout/lookups.py:96-99 | every generator's fragment starts with `(` and binds |
| Lookups.TagTermsReady | grout/lookups.py:102-110 | every text-similarity fragment made for a rule's pattern terms binds |
| Lookups.CompileRulesReady | grout/lookups.py:92-110 | after the loop every collected fragment binds |
| Lookups.SelectRender | grout/lookups.py:110 | any selection of binding fragments binds |
| Lookups.GroupByTermRender | grout/lookups.py:104-120 | every group of binding fragments binds |
| Lookups.SqlRenders | grout/lookups.py:84-139 | for a column without `%`, the output of `sql()` binds: placeholders and parameters match in number, and the bound text is the filter string of the bound fragments |
| Lookups.GenerateParenthesized | grout/lookups.py:96-99 | every generator's fragment starts with `(` |
| Lookups.CompileRulesParenthesized | grout/lookups.py:92-99 | every fragment in `rule_specs` starts with `(` |
| Lookups.CompileRuleStep | grout/lookups.py:96-110 | one turn of the loop succeeds exactly when the rule's generator, its `shlex.split` and its text-similarity filters succeed, and then appends the generator's result unless it is `None`, and the tagged pattern fragments |
| Lookups.CompileRulesOk | grout/lookups.py:92-110 | the loop of `sql()` succeeds exactly when every rule compiles |
| Lookups.CompileRulesInOrder | grout/lookups.py:92-110 | after the loop, `rule_specs` holds exactly the non-`None` generator results, and `patterns` has received exactly the pattern fragments, both in rule order (a `None` result is dropped, `grout/lookups.py:98-99`) |
| Lookups.GroupByTermNonEmpty | grout/lookups.py:110 | adding a pattern fragment always leaves `patterns` non-empty |
| Lookups.CompileEmpty | grout/lookups.py:84-130 | `sql()` returns `('', ())` exactly when no rule produced a fragment and no pattern produced a term |
| Lookups.CompileRulesStops | grout/lookups.py:92-110 | an exception raised for a rule ends `sql()` with that exception |
| Lookups.TagTermsStops | grout/lookups.py:104-110 | an exception raised for a pattern term ends the loop with that exception |
| Lookups.OperatorAtTraversalPath | grout/lookups.py:332-341 | `operator_at_traversal_path` as written; stated by `TraversalBinds` and `SingleElementTraversal` |
| Lookups.ExtractValueAtPath | grout/lookups.py:320-321 | `extract_value_at_path`, corrected for a one-element path (see Left out); stated by `TraversalBinds` and `TraversalPlaceholders` |
| Lookups.ContainsKeyAtPath | grout/lookups.py:328-329 | `contains_key_at_path`, corrected in the same way |
| Lookups.ReconstructObject | grout/lookups.py:344-353 | `reconstruct_object`; stated by `ReconstructObjectBinds` and `ReconstructObjectPlaceholders` |
| Lookups.ReconstructObjectMultiple | grout/lookups.py:356-369 | `reconstruct_object_multiple`; stated by `ReconstructObjectMultipleBinds` and `ReconstructObjectMultiplePlaceholders` |
| Lookups.IntrangeFilter | grout/lookups.py:231-274 | `intrange_filter` over the corrected traversal; stated by `IntrangeLower`, `IntrangeUpper`, `IntrangeBetween` and `IntrangeRenders` |
| Lookups.ContainmentFragment | grout/lookups.py:143-228 | `containment_filter` and `multiple_containment_filter`; stated by `ContainmentRenders` and `ContainmentParams` |
| Lookups.TextSimilarityFilter | grout/lookups.py:277-316 | `text_similarity_filter` over the corrected traversal; stated by `TextSimilarityRenders` |
| Lookups.CompileRules | grout/lookups.py:92-110 | the rule loop of `sql()`; stated by `CompileRulesOk`, `CompileRulesInOrder` and `CompileRulesStops` |
| Lookups.Assemble | grout/lookups.py:112-138 | the assembly after the rule loop; stated by `AssembleRenders` and `CompileEmpty` |
| Lookups.Compile | grout/lookups.py:84-139 | `sql()` as one function, over the corrected traversal; stated by `SqlRenders` and `CompileEmpty` |
| Lookups.FilterTree.constructor | grout/lookups.py:20-31 | the object keeps the tree and the column, and its rules are what `get_rules` returns |
| Lookups.FilterTree.Create | grout/lookups.py:20-31 | construction fails exactly with the TypeError `get_rules` raises |
| Lookups.FilterTree.Sql | grout/lookups.py:84-139 | the imperative `sql()` returns exactly `Compile(rules)` |
| Lookups.AddRule | grout/lookups.py:96-110 | one turn of the loop in `sql()` extends `rule_specs` and `patterns` as `CompileRule` says, or stops with its error |
| Lookups.AddPatternTerms | grout/lookups.py:102-110 | the inner loop over pattern terms updates `patterns` as the grouping of all tagged fragments so far |
| Lookups.AssembleFilter | grout/lookups.py:112-138 | the loops after the rule loop build exactly `Assemble(rule_specs, patterns)` |
| Lookups.RootRangeRuleLocated | grout/lookups.py:62-68 | a tree that is itself a rule is found at the one-element path `[field]` |
| Lookups.RootRuleAsWritten | grout/lookups.py:332-341 | as written, that rule's fragment is `((->>%s)::int >= %s)` with one parameter, so it has two placeholders |
| Lookups.RootRuleCorrected | grout/lookups.py:247-274 | with the corrected traversal, the fragment is `((field)::int >= %s)`, with one placeholder for one parameter |
| Vectors.TraversalExamples | tests/jsonb_field_testing/tests.py:31-35 | `['a','b','c']` gives `a->%s->>%s` and `a->%s?%s` |
| Vectors.TwoRuleTreeRules | tests/jsonb_field_testing/tests.py:37-38 | the two-rule tree holds one rule, at `['data', 'testing']` |
| Vectors.MinNone | tests/jsonb_field_testing/tests.py:336-338 | a range rule whose `min` is `None` gives no filter |
| Vectors.MinOne | tests/jsonb_field_testing/tests.py:339-342 | `min: 1` gives `((a->%s->>%s)::int >= %s)` with `b`, `c`, `1` |
| Vectors.MaxOne | tests/jsonb_field_testing/tests.py:343-346 | `max: 1` gives `((a->%s->>%s)::int <= %s)` with `b`, `c`, `1` |
| Vectors.MaxOneMinNone | tests/jsonb_field_testing/tests.py:347-350 | `max: 1` with `min: None` gives the same as `max: 1` alone |
| Vectors.ExcludeNullFound | tests/jsonb_field_testing/tests.py:354-357 | the tree `{'should_be': ..., 'should_not_be': ...}` holds both rules, in that order |
| Vectors.ExcludeNullFilters | tests/jsonb_field_testing/tests.py:352-359 | the range rule without bounds drops out: the filter is `((data @> %s OR data @> %s))` and holds no `AND` |
| Vectors.ContainmentExample | tests/jsonb_field_testing/tests.py:59-62 | `containment_filter(['a','b'], rule)` gives `(a @> %s OR a @> %s)` with `{"b": "test1"}` and `{"b": "a thing"}` |
| SerializerFields.JsonBToRepresentation | grout/serializer_fields.py:19-20 | the value passes unchanged; stated with `to_internal_value` by `JsonBRoundTrip` |
| SerializerFields.JsonBToInternalValue | grout/serializer_fields.py:22-28 | dicts and lists pass unchanged, even when empty; with `allow_null`, any other falsy value becomes `None`; everything else raises "Array or object required" |
| SerializerFields.InternalValueIdempotent | grout/serializer_fields.py:22-28 | an accepted value is a container or `None`, and it is accepted again unchanged |
| SerializerFields.JsonBRoundTrip | grout/serializer_fields.py:19-28 | any object or array survives `to_representation` followed by `to_internal_value` |
| SerializerFields.SetItem | grout/serializer_fields.py:75 | `representation[new_key] = new_val` on an insertion-ordered dict; stated by the three lemmas below |
| SerializerFields.SetItemGet | grout/serializer_fields.py:75 | after `representation[new_key] = new_val` the key maps to the new value and every other key to what it mapped to before |
| SerializerFields.SetItemPlace | grout/serializer_fields.py:75 | an existing key keeps its place (the length is unchanged); a new key goes at the end |
| SerializerFields.SetItemDistinct | grout/serializer_fields.py:75 | the assignment keeps the keys of the dict distinct |
| SerializerFields.BoundName | grout/serializer_fields.py:59-62 | an explicit method name is kept; otherwise the name is `transform_<field_name>` |
| SerializerFields.RebindKeepsName | grout/serializer_fields.py:59-62 | binding again never changes the name |
| SerializerFields.MethodTransformJsonField.constructor | grout/serializer_fields.py:54-57 | the given method name is kept, and the field is read-only |
| SerializerFields.MethodTransformJsonField.Bind | grout/serializer_fields.py:59-63 | the default name is set only when no name was given, and the field name is recorded |
| SerializerFields.MethodTransformJsonField.ToRepresentation | grout/serializer_fields.py:65-78 | the loop returns exactly `Represent`: the lookup errors, then the transform of the members in order |
| SerializerFields.TransformMembers | grout/serializer_fields.py:72-78 | the loop over the members with its `try`; stated by the `Transform` lemmas below |
| SerializerFields.Represent | grout/serializer_fields.py:65-78 | `to_representation`: no method name, a method the parent does not have, or a value that is not an object is an error; otherwise the transform of the members |
| SerializerFields.TransformStops | grout/serializer_fields.py:72-77 | once a transform raises, the result is that exception |
| SerializerFields.TransformFails | grout/serializer_fields.py:72-77 | the result is an error exactly when some transform raises something other than DropJsonKeyException |
| SerializerFields.TransformKeys | grout/serializer_fields.py:72-78 | the result holds a key exactly when some member's transform returned a pair with that key; dropped members contribute nothing |
| SerializerFields.TransformLastWins | grout/serializer_fields.py:72-78 | a key's value comes from the last member whose transform produced that key |
| SerializerFields.TransformDistinct | grout/serializer_fields.py:71-78 | the result has no repeated key |
| SerializerFields.TransformIdentity | grout/serializer_fields.py:72-78 | a transform that returns each pair unchanged gives back the object |
| Text.ShlexSplit | grout/lookups.py:104 | POSIX `shlex.split`; stated by `ShlexSplitUnquoted` and `WordsAreWords` |
| Text.ShlexSplitUnquoted | grout/lookups.py:104 | on text without quotes or backslashes, `shlex.split` gives exactly the maximal runs of non-whitespace, in order |
| Text.WordsAreWords | grout/lookups.py:104 | each of those words is non-empty and holds no whitespace |
| Text.ReEscape | grout/lookups.py:313-316 | Python 3.7 `re.escape`; stated by `ReEscapeIsLiteral` |
| Text.ReEscapeIsLiteral | grout/lookups.py:313-316 | the escaped term, read as a regex, is a literal that matches exactly the term |
| JsonValues.Dumps | grout/lookups.py:174-176 | `json.dumps` with default settings; used by `ReconstructObjectBinds` and `ContainmentParams` |

## Left out

- Evaluation in PostgreSQL is not modelled. The model describes the SQL text and parameters, not what a query selects.
- psycopg2's adaptation of parameters is the parameter `lit` of `Render`, and any rendering is allowed. `JSONLookup.as_sql` (`grout/lookups.py:372-396`) and Django's compilation are not part of this model.
- JSON numbers are integers. Floats and their `json.dumps` spelling are not modelled.
- Object members keep insertion order, as Python 3.7 dicts do. The dict order of Python 2 and 3.4–3.5, and the `re.escape` of Python 2 and 3.4–3.6 that escapes every non-alphanumeric character, are not modelled; `re.escape` follows Python 3.7's set of special characters.
- Duplicate keys cannot occur in a Python dict. The model's member lists can hold them, and `Get` then returns the first.
- `shlex.split(None)` reads standard input. In the model, a `pattern` that is not a string, `None` included, is the error `PatternNotString`.
- Lookups.TextSimilarityFilter: takes a string term, so the `pattern is None` guard at `grout/lookups.py:299-301` is not modelled. `sql()` only passes terms from `shlex.split`, which are strings.
- The `is_rule` check at `grout/lookups.py:94-95` does nothing (`pass`) and is not modelled. Every rule `get_rules` returns passes it anyway.
- `sql_generators` (`grout/lookups.py:25-29`) is the fixed table `RuleTypeOf`/`Generate`, not a mutable dict.
- An exception in the core is an `Err` value of a `Result`, not an exception. Only the exceptions the core code can raise on JSON input are modelled:
  - TypeError from an unhashable `_rule_type`;
  - a non-iterable `contains`;
  - IndexError from the traversal of the empty path `path[:-1]` when `path_multiple` has a one-element path;
  - a shlex syntax error.
- `GeomBBoxField` (`grout/serializer_fields.py:87-96`) works on GEOS geometries with floating-point extents and is not part of this model. `JsonSchemaField` only adds a validator from another module and is not part of this model.
- SerializerFields.MethodTransformJsonField.ToRepresentation: the parent serializer is a map from method names to functions. Keys returned by a transform are strings; non-string or unhashable keys are not modelled. The rest of Django REST framework's `Field.bind` and `Field.__init__` is not modelled.
- The serializer method and `transform_method(key, val)` are calls into code outside the core. Each call is an `Outcome` value: a new pair, DropJsonKeyException, or any other exception, including a return value that is not a pair.
- The unit tests that compare a whole `sql()` result with `%s` templates (`test_intrange_sql` and `test_containment_sql` in `tests/jsonb_field_testing/tests.py`) are not included as vectors. Their general statement is `SqlRenders` together with `IntrangeBetween` and `ContainmentRenders`. The tests that run queries against a database, among them `test_text_similarity_filter`, `test_text_similarity_split_spaces` and `test_text_similarity_multiple`, are outside this model.
- Lookups.ExtractValueAtPath: uses the traversal corrected for a one-element path, which is the column itself, and not `operator_at_traversal_path` as written, which drops the column there (see Findings). For paths of two or more elements the two agree. The code as written is `Lookups.OperatorAtTraversalPath`, and `SingleElementTraversal` and `RootRuleAsWritten` state what it does. So the rows `TraversalBinds`, `TraversalPlaceholders`, `IntrangeLower`, `IntrangeUpper`, `IntrangeBetween`, `IntrangeRenders`, `TextSimilarityRenders` and `SqlRenders` describe the corrected code wherever a rule sits at the root of the tree, or a `containment_multiple` rule with a pattern sits one level below it.
- Lookups.ContainsKeyAtPath: corrected in the same way as `ExtractValueAtPath`.
- Lookups.IntrangeFilter: built on the corrected `ExtractValueAtPath`.
- Lookups.TextSimilarityFilter: built on the corrected traversal of `path[:-1]` and `path`.
- Lookups.Compile: built on the corrected generators, so a rule at the root of the tree compiles as the corrected code would.
- Lookups.FilterTree.Sql: returns `Compile`, and is corrected in the same way.

## Findings

| source | as written | input that shows it | evidently intended | confidence | as-written member | corrected member |
|---|---|---|---|---|---|---|
| grout/lookups.py:339-341 | for a one-element path, `operator_at_traversal_path` returns `op + '%s'`: the column is dropped and one placeholder is left with no parameter for it | the query tree `{"_rule_type": "intrange", "min": 1}` on column `data`: `get_rules` gives `[(['data'], rule)]`, and `intrange_filter` builds `((->>%s)::int >= %s)` with the one parameter `1`. A `containment_multiple` rule with a `pattern` one level below the root reaches the same case through `path[:-1]` | the traversal of a one-element path is the column itself, so the template has one placeholder per key (`((data)::int >= %s)`) | not executed | Lookups.RootRuleAsWritten | Lookups.RootRuleCorrected |
