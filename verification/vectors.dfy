/** The worked examples of the repository's test suite
    (`tests/jsonb_field_testing/tests.py`), evaluated on the model. */
module Vectors {
  import opened Text
  import opened JsonValues
  import opened Lookups

  /** A three-element path takes two keys: `a->%s->>%s` and `a->%s?%s`. */
  lemma TraversalExamples()
    ensures ExtractValueAtPath(["a", "b", "c"]) == "a->%s->>%s"
    ensures ContainsKeyAtPath(["a", "b", "c"]) == "a->%s?%s"
  {
    var path := ["a", "b", "c"];
    var fmt := [path[0]] + Repeat("%s", 2);
    assert fmt == ["a", "%s", "%s"];
    assert fmt[..2] == ["a", "%s"];
    assert Join("->", ["a", "%s"]) == "a->%s";
  }

  /** `{'_rule_type': 'intrange', 'min': 1, 'max': 5}`. */
  function IntRule(): seq<Member>
  {
    [Member("_rule_type", JStr("intrange")), Member("min", JNum(1)), Member("max", JNum(5))]
  }

  /** `{'_rule_type': 'containment', 'contains': ['test1', 'a thing']}`. */
  function ContainsRule(): seq<Member>
  {
    [Member("_rule_type", JStr("containment")), Member("contains", JArr([JStr("test1"), JStr("a thing")]))]
  }

  /** Printable ASCII other than quote and backslash is written as is. */
  lemma {:induction false} PlainText(s: string)
    requires forall i :: 0 <= i < |s| ==> 0x20 <= s[i] as int <= 0x7E && s[i] != '"' && s[i] != '\\'
    ensures EscapeJson(s) == s
  {
    if |s| > 0 {
      PlainText(s[1..]);
      assert [s[0]] + s[1..] == s;
    }
  }

  /** `{"b": "s"}` for a plain string `s`. */
  lemma ItemUnderB(s: string)
    requires EscapeJson(s) == s
    ensures ContainmentLiteral(["b"], JStr(s), false) == JStr("{" + "\"b\"" + ": " + ("\"" + s + "\"") + "}")
  {
    assert ["b"][1..] == [];
    assert Nest(["b"], JStr(s)) == JObj([Member("b", JStr(s))]);
    DumpsSingleMember("b", JStr(s));
    PlainText("b");
    assert QuoteString("b") == "\"b\"";
  }

  /** Two items give two alternatives on the column `a`. */
  lemma TwoAlternatives()
    ensures "(" + Join(" OR ", Repeat("a" + " @> " + "%s", 2)) + ")" == "(a @> %s OR a @> %s)"
  {
    var c := "a" + " @> " + "%s";
    assert c == "a @> %s";
    assert Repeat(c, 0) == [];
    assert Repeat(c, 1) == [c];
    assert Repeat(c, 2) == [c, c];
    assert Join(" OR ", [c, c]) == c + " OR " + c;
  }

  /** The two literals nest each item under `b`. */
  lemma TwoLiterals()
    ensures ContainmentParams(["b"], [JStr("test1"), JStr("a thing")], false) ==
            [JStr("{\"b\": \"test1\"}"), JStr("{\"b\": \"a thing\"}")]
  {
    PlainWords();
    ItemUnderB("test1");
    ItemUnderB("a thing");
    Spliced();
    TwoParams(["b"], JStr("test1"), JStr("a thing"));
  }

  lemma TwoParams(keys: seq<string>, x: Json, y: Json)
    ensures ContainmentParams(keys, [x, y], false) == [ContainmentLiteral(keys, x, false), ContainmentLiteral(keys, y, false)]
  {
  }

  lemma Spliced()
    ensures "{" + "\"b\"" + ": " + ("\"" + "test1" + "\"") + "}" == "{\"b\": \"test1\"}"
    ensures "{" + "\"b\"" + ": " + ("\"" + "a thing" + "\"") + "}" == "{\"b\": \"a thing\"}"
  {
  }

  lemma PlainWords()
    ensures EscapeJson("test1") == "test1"
    ensures EscapeJson("a thing") == "a thing"
  {
    var w1, w2 := "test1", "a thing";
    assert forall i :: 0 <= i < |w1| ==> 0x20 <= w1[i] as int <= 0x7E && w1[i] != '"' && w1[i] != '\\';
    PlainText(w1);
    assert forall i :: 0 <= i < |w2| ==> 0x20 <= w2[i] as int <= 0x7E && w2[i] != '"' && w2[i] != '\\';
    PlainText(w2);
  }

  /** The containment filter over `['a', 'b']` tests the column `a` against
      one object per item, each nesting the item under `b`. */
  lemma ContainmentExample()
    ensures ContainmentFragment(["a", "b"], ContainsRule(), false) ==
            Ok(Some(Fragment("(a @> %s OR a @> %s)",
                             [JStr("{\"b\": \"test1\"}"), JStr("{\"b\": \"a thing\"}")])))
  {
    var rule := ContainsRule();
    var items := [JStr("test1"), JStr("a thing")];
    assert Get(rule, "contains") == Some(JArr(items));
    assert ["a", "b"][1..] == ["b"];
    TwoAlternatives();
    TwoLiterals();
  }

  /** `{'_rule_type': 'sort of a cheat'}`: names no generator. */
  function NotARule(): seq<Member>
  {
    [Member("_rule_type", JStr("sort of a cheat"))]
  }

  /** The `alpha` branch of the two-rule tree, which holds no rule: the
      object under `delta` names no generator and `distraction` is a list. */
  function AlphaBranch(): Json
  {
    JObj([Member("beta", JObj([Member("gamma", JObj([Member("delta", JObj(NotARule()))])),
                               Member("distraction", JArr([]))]))])
  }

  lemma NotARuleHoldsNothing(current: seq<string>)
    ensures GetRules("data", JObj(NotARule()), current) == Ok([])
  {
    var ms := NotARule();
    assert Get(ms, "_rule_type") == Some(JStr("sort of a cheat"));
    assert RuleTypeNamed("sort of a cheat") == None;
    assert IsRule(ms) == Ok(false);
    assert ms[1..] == [];
    assert GetRulesMembers("data", ms[1..], current) == Ok([]);
    assert GetRules("data", JStr("sort of a cheat"), current + ["_rule_type"]) == Ok([]);
    var none: seq<Located> := [];
    assert none + none == none;
    assert GetRulesMembers("data", ms, current) == Ok(none);
    assert GetRules("data", JObj(ms), current) == GetRulesMembers("data", ms, current);
  }

  /** An object with one member holds what that member's value holds. */
  lemma OneMember(k: string, v: Json, current: seq<string>)
    requires Get([Member(k, v)], "_rule_type") == None
    requires GetRules("data", v, current + [k]) == Ok([])
    ensures GetRules("data", JObj([Member(k, v)]), current) == Ok([])
  {
    var ms := [Member(k, v)];
    assert IsRule(ms) == Ok(false);
    assert ms[1..] == [];
    assert GetRulesMembers("data", ms[1..], current) == Ok([]);
    var none: seq<Located> := [];
    assert none + none == none;
    assert GetRulesMembers("data", ms, current) == Ok(none);
    assert GetRules("data", JObj(ms), current) == GetRulesMembers("data", ms, current);
  }

  lemma AlphaBranchHoldsNothing(current: seq<string>)
    ensures GetRules("data", AlphaBranch(), current) == Ok([])
  {
    var cb := current + ["beta"];
    var cg := cb + ["gamma"];
    NotARuleHoldsNothing(cg + ["delta"]);
    OneMember("delta", JObj(NotARule()), cg);
    var beta := [Member("gamma", JObj([Member("delta", JObj(NotARule()))])), Member("distraction", JArr([]))];
    assert Get(beta, "_rule_type") == None by {
      assert beta[1..][1..] == [];
    }
    assert IsRule(beta) == Ok(false);
    assert beta[1..][1..] == [];
    assert GetRulesMembers("data", beta[1..][1..], cb) == Ok([]);
    assert GetRules("data", JArr([]), cb + ["distraction"]) == Ok([]);
    assert GetRulesMembers("data", beta[1..], cb) == Ok([] + []);
    assert GetRulesMembers("data", beta, cb) == Ok([] + []);
    OneMember("beta", JObj(beta), current);
  }

  /** `two_rules`: the only rule found is the range under `testing`. */
  lemma TwoRuleTreeRules()
    ensures GetRules("data", JObj([Member("testing", JObj(IntRule())), Member("alpha", AlphaBranch())]), []) ==
            Ok([Located(["data", "testing"], IntRule())])
  {
    var m1, m2 := Member("testing", JObj(IntRule())), Member("alpha", AlphaBranch());
    assert Get([m1, m2], "_rule_type") == None by {
      assert [m1, m2][1..][1..] == [];
    }
    assert IsRule([m1, m2]) == Ok(false);
    assert [] + ["testing"] == ["testing"];
    TestingRule();
    assert [] + ["alpha"] == ["alpha"];
    AlphaBranchHoldsNothing(["alpha"]);
    TwoMembers(m1, m2, [], [Located(["data", "testing"], IntRule())]);
  }

  /** The range rule under `testing` is found there. */
  lemma TestingRule()
    ensures GetRules("data", JObj(IntRule()), ["testing"]) == Ok([Located(["data", "testing"], IntRule())])
  {
    assert Get(IntRule(), "_rule_type") == Some(JStr("intrange"));
    assert IsRule(IntRule()) == Ok(true);
    assert ["data"] + ["testing"] == ["data", "testing"];
  }

  /** An object of two members that is not a rule holds the rules of the
      first when the second holds none. */
  lemma TwoMembers(m1: Member, m2: Member, current: seq<string>, found: seq<Located>)
    requires IsRule([m1, m2]) == Ok(false)
    requires GetRules("data", m1.value, current + [m1.key]) == Ok(found)
    requires GetRules("data", m2.value, current + [m2.key]) == Ok([])
    ensures GetRules("data", JObj([m1, m2]), current) == Ok(found)
  {
    var ms := [m1, m2];
    assert ms[1..] == [m2] && ms[1..][1..] == [];
    var none: seq<Located> := [];
    assert GetRulesMembers("data", ms[1..], current) == Ok(none + none);
    assert none + none == none;
    assert found + none == found;
  }

  /** A range rule with the given members after its type. */
  function RangeRule(bounds: seq<Member>): seq<Member>
  {
    [Member("_rule_type", JStr("intrange"))] + bounds
  }

  /** The range filter over `['a', 'b', 'c']` passes the keys `b` and `c`
      before each bound. */
  lemma RangeOverABC(rule: seq<Member>)
    ensures IntrangeFilter(["a", "b", "c"], rule) == IntrangeWith("a->%s->>%s", ["b", "c"], rule)
    ensures KeyParams(["b", "c"]) == [JStr("b"), JStr("c")]
  {
    TraversalExamples();
    assert ["a", "b", "c"][1..] == ["b", "c"];
  }

  lemma RangeSpliced()
    ensures "(" + ("(" + "a->%s->>%s" + ")::int" + " >= " + "%s") + ")" == "((a->%s->>%s)::int >= %s)"
    ensures "(" + ("(" + "a->%s->>%s" + ")::int" + " <= " + "%s") + ")" == "((a->%s->>%s)::int <= %s)"
  {
  }

  /** A minimum of None adds no filter. */
  lemma MinNone()
    ensures IntrangeFilter(["a", "b", "c"], RangeRule([Member("min", JNull)])) == None
  {
    RangeOverABC(RangeRule([Member("min", JNull)]));
  }

  /** A minimum of 1 alone compares from below. */
  lemma MinOne()
    ensures IntrangeFilter(["a", "b", "c"], RangeRule([Member("min", JNum(1))])) ==
            Some(Fragment("((a->%s->>%s)::int >= %s)", [JStr("b"), JStr("c"), JNum(1)]))
  {
    var rule := RangeRule([Member("min", JNum(1))]);
    RangeOverABC(rule);
    assert Get(rule, "min") == Some(JNum(1)) && Get(rule, "max") == None;
    assert IntrangeWith("a->%s->>%s", ["b", "c"], rule) ==
           Some(Fragment("(" + ("(" + "a->%s->>%s" + ")::int" + " >= " + "%s") + ")", [JStr("b"), JStr("c")] + [JNum(1)]));
    RangeSpliced();
    assert [JStr("b"), JStr("c")] + [JNum(1)] == [JStr("b"), JStr("c"), JNum(1)];
  }

  /** A maximum of 1 alone compares from above. */
  lemma MaxOne()
    ensures IntrangeFilter(["a", "b", "c"], RangeRule([Member("max", JNum(1))])) ==
            Some(Fragment("((a->%s->>%s)::int <= %s)", [JStr("b"), JStr("c"), JNum(1)]))
  {
    var rule := RangeRule([Member("max", JNum(1))]);
    RangeOverABC(rule);
    assert Get(rule, "max") == Some(JNum(1)) && Get(rule, "min") == None;
    assert IntrangeWith("a->%s->>%s", ["b", "c"], rule) ==
           Some(Fragment("(" + ("(" + "a->%s->>%s" + ")::int" + " <= " + "%s") + ")", [JStr("b"), JStr("c")] + [JNum(1)]));
    RangeSpliced();
    assert [JStr("b"), JStr("c")] + [JNum(1)] == [JStr("b"), JStr("c"), JNum(1)];
  }

  /** A minimum of None beside a maximum of 1 is as if it were absent. */
  lemma MaxOneMinNone()
    ensures IntrangeFilter(["a", "b", "c"], RangeRule([Member("max", JNum(1)), Member("min", JNull)])) ==
            Some(Fragment("((a->%s->>%s)::int <= %s)", [JStr("b"), JStr("c"), JNum(1)]))
  {
    var rule := RangeRule([Member("max", JNum(1)), Member("min", JNull)]);
    RangeOverABC(rule);
    assert Get(rule, "max") == Some(JNum(1)) && Get(rule, "min") == Some(JNull);
    assert IntrangeWith("a->%s->>%s", ["b", "c"], rule) ==
           Some(Fragment("(" + ("(" + "a->%s->>%s" + ")::int" + " <= " + "%s") + ")", [JStr("b"), JStr("c")] + [JNum(1)]));
    RangeSpliced();
    assert [JStr("b"), JStr("c")] + [JNum(1)] == [JStr("b"), JStr("c"), JNum(1)];
  }

  /** `{'_rule_type': 'intrange', 'min': None, 'max': None}`. */
  function IntNoneRule(): seq<Member>
  {
    RangeRule([Member("min", JNull), Member("max", JNull)])
  }

  /** `{'should_be': <the containment rule>, 'should_not_be': <the range
      rule without bounds>}`. */
  function ExcludeNullTree(): Json
  {
    JObj([Member("should_be", JObj(ContainsRule())), Member("should_not_be", JObj(IntNoneRule()))])
  }

  /** The rules found in that tree, in the order of its members. */
  function ExcludeNullRules(): seq<Located>
  {
    [Located(["data", "should_be"], ContainsRule()), Located(["data", "should_not_be"], IntNoneRule())]
  }

  /** A rule object found at `["data", k]`. */
  lemma RuleAt(k: string, rule: seq<Member>)
    requires IsRule(rule) == Ok(true)
    ensures GetRules("data", JObj(rule), [k]) == Ok([Located(["data", k], rule)])
  {
    assert ["data"] + [k] == ["data", k];
  }

  /** An object of two members that is not a rule holds the rules of the
      first, then those of the second. */
  lemma TwoMembersBoth(m1: Member, m2: Member, found1: seq<Located>, found2: seq<Located>)
    requires IsRule([m1, m2]) == Ok(false)
    requires GetRules("data", m1.value, [m1.key]) == Ok(found1)
    requires GetRules("data", m2.value, [m2.key]) == Ok(found2)
    ensures GetRules("data", JObj([m1, m2]), []) == Ok(found1 + found2)
  {
    var ms := [m1, m2];
    assert ms[1..] == [m2] && ms[1..][1..] == [];
    assert [] + [m1.key] == [m1.key] && [] + [m2.key] == [m2.key];
    var none: seq<Located> := [];
    assert GetRulesMembers("data", ms[1..][1..], []) == Ok(none);
    assert GetRulesMembers("data", ms[1..], []) == Ok(found2 + none);
    assert found2 + none == found2;
    assert GetRulesMembers("data", ms, []) == Ok(found1 + found2);
  }

  lemma ExcludeNullFound()
    ensures GetRules("data", ExcludeNullTree(), []) == Ok(ExcludeNullRules())
  {
    var m1, m2 := Member("should_be", JObj(ContainsRule())), Member("should_not_be", JObj(IntNoneRule()));
    assert Get([m1, m2], "_rule_type") == None by {
      assert [m1, m2][1..][1..] == [];
    }
    assert IsRule([m1, m2]) == Ok(false);
    assert Get(ContainsRule(), "_rule_type") == Some(JStr("containment"));
    RuleAt("should_be", ContainsRule());
    assert Get(IntNoneRule(), "_rule_type") == Some(JStr("intrange"));
    RuleAt("should_not_be", IntNoneRule());
    TwoMembersBoth(m1, m2, [ExcludeNullRules()[0]], [ExcludeNullRules()[1]]);
    assert [ExcludeNullRules()[0]] + [ExcludeNullRules()[1]] == ExcludeNullRules();
  }

  /** The range rule without bounds gives no fragment and no pattern. */
  lemma IntNoneLeaf()
    ensures Locatable(ExcludeNullRules()[1])
    ensures LeafOf(ExcludeNullRules()[1]) == [] && EntriesOf(ExcludeNullRules()[1]) == []
    ensures RuleCompiles(ExcludeNullRules()[1])
  {
    var rule := IntNoneRule();
    assert Get(rule, "_rule_type") == Some(JStr("intrange"));
    assert Get(rule, "min") == Some(JNull) && Get(rule, "max") == Some(JNull);
    assert Get(rule, "pattern") == None;
  }

  /** The containment rule at `["data", "should_be"]` tests the column
      `data` twice. */
  lemma ContainsLeaf()
    ensures Locatable(ExcludeNullRules()[0])
    ensures |LeafOf(ExcludeNullRules()[0])| == 1
    ensures LeafOf(ExcludeNullRules()[0])[0].sql == "(data @> %s OR data @> %s)"
    ensures EntriesOf(ExcludeNullRules()[0]) == []
    ensures RuleCompiles(ExcludeNullRules()[0])
  {
    var rule := ContainsRule();
    var items := [JStr("test1"), JStr("a thing")];
    assert Get(rule, "_rule_type") == Some(JStr("containment"));
    assert Get(rule, "contains") == Some(JArr(items));
    assert Get(rule, "pattern") == None;
    DataAlternatives();
  }

  lemma DataAlternatives()
    ensures "(" + Join(" OR ", Repeat("data" + " @> " + "%s", 2)) + ")" == "(data @> %s OR data @> %s)"
  {
    var c := "data" + " @> " + "%s";
    assert c == "data @> %s";
    assert Repeat(c, 0) == [];
    assert Repeat(c, 1) == [c];
    assert Repeat(c, 2) == [c, c];
    assert Join(" OR ", [c, c]) == c + " OR " + c;
  }

  /** `s` holds `t` at some position. */
  ghost predicate Holds(s: string, t: string)
  {
    exists i, j :: 0 <= i <= j <= |s| && j - i == |t| && s[i..j] == t
  }

  /** Only the containment rule adds a fragment, and neither rule has a
      pattern. */
  lemma ExcludeNullCompiled()
    ensures AllLocatable(ExcludeNullRules())
    ensures CompileRules(ExcludeNullRules()) == Ok(Compiled(LeafOf(ExcludeNullRules()[0]), []))
  {
    var rules := ExcludeNullRules();
    ContainsLeaf();
    IntNoneLeaf();
    CompileRulesOk(rules);
    CompileRulesInOrder(rules);
    assert rules[1..] == [rules[1]] && rules[1..][1..] == [];
    assert GeneratedLeafs(rules) == LeafOf(rules[0]) + (LeafOf(rules[1]) + GeneratedLeafs([]));
    assert LeafOf(rules[0]) + ([] + []) == LeafOf(rules[0]);
    assert PatternEntries(rules) == EntriesOf(rules[0]) + (EntriesOf(rules[1]) + PatternEntries([]));
  }

  /** One rule fragment and no pattern: the fragment in parentheses. */
  lemma AssembleOne(f: Fragment)
    requires f.sql != ""
    ensures Assemble([f], GroupByTerm([])).sql == "(" + f.sql + ")"
  {
    assert Join(" AND ", Sqls([f])) == f.sql;
    assert f.sql + "" == f.sql;
  }

  lemma DataSpliced()
    ensures "(" + "(data @> %s OR data @> %s)" + ")" == "((data @> %s OR data @> %s))"
  {
  }

  lemma NoAnd()
    ensures !Holds("((data @> %s OR data @> %s))", "AND")
  {
    var sql := "((data @> %s OR data @> %s))";
    assert 'A' !in sql;
    forall i, j | 0 <= i <= j <= |sql| && j - i == 3
      ensures sql[i..j] != "AND"
    {
      assert sql[i..j][0] == sql[i] != 'A';
    }
  }

  /** The rule without bounds drops out of the filter: only the
      containment fragment remains, in one pair of parentheses, and the
      filter holds no `AND`. */
  lemma ExcludeNullFilters()
    ensures GetRules("data", ExcludeNullTree(), []) == Ok(ExcludeNullRules())
    ensures AllLocatable(ExcludeNullRules())
    ensures Compile(ExcludeNullRules()).Ok?
    ensures Compile(ExcludeNullRules()).value.sql == "((data @> %s OR data @> %s))"
    ensures !Holds(Compile(ExcludeNullRules()).value.sql, "AND")
  {
    ExcludeNullFound();
    ExcludeNullCompiled();
    ContainsLeaf();
    var leaf := LeafOf(ExcludeNullRules()[0])[0];
    assert [leaf] == LeafOf(ExcludeNullRules()[0]);
    var empty: seq<Tagged> := [];
    assert Compile(ExcludeNullRules()) == Ok(Assemble([leaf], GroupByTerm(empty)));
    AssembleOne(leaf);
    DataSpliced();
    NoAnd();
  }
}
