/** The nested JSON filter compiler of `grout/lookups.py`: `FilterTree`
    walks a query tree for rule nodes, compiles each rule into an SQL
    fragment with `%s` placeholders and its bind parameters, adds
    text-similarity fragments for `pattern` terms, and assembles one
    parenthesized predicate with one flat parameter list. */
module Lookups {
  import opened Text
  import opened JsonValues

  /** The exceptions the compiler can raise on a decoded query tree. */
  datatype Error =
    | UnhashableRuleType      // `_rule_type` holds a list or a dict
    | ContainsNotIterable     // `contains` holds a number, a boolean or null
    | PatternNotString        // `pattern` holds something other than a string
    | PatternSyntax(e: ShlexError)
    | PathIndexError          // `path[:-1]` of a one-element path is indexed

  /** A compiled piece of SQL: a template and its bind parameters. */
  datatype Fragment = Fragment(sql: string, params: seq<Json>)

  /** Path keys become string parameters. */
  function KeyParams(ks: seq<string>): (r: seq<Json>)
    ensures |r| == |ks|
    ensures forall i :: 0 <= i < |ks| ==> r[i] == JStr(ks[i])
  {
    if |ks| == 0 then [] else [JStr(ks[0])] + KeyParams(ks[1..])
  }

  /** Parameters as the database driver sees them, one literal each. */
  function Literals(ps: seq<Json>, lit: Json -> string): (r: seq<string>)
    ensures |r| == |ps|
    ensures forall i :: 0 <= i < |ps| ==> r[i] == lit(ps[i])
  {
    if |ps| == 0 then [] else [lit(ps[0])] + Literals(ps[1..], lit)
  }

  lemma LiteralsAppend(a: seq<Json>, b: seq<Json>, lit: Json -> string)
    ensures Literals(a + b, lit) == Literals(a, lit) + Literals(b, lit)
  {
  }

  /** A fragment with its parameters substituted into its placeholders. */
  function Render(f: Fragment, lit: Json -> string): Option<string>
  {
    Interpolate(f.sql, Literals(f.params, lit))
  }

  // ---------------------------------------------------------------------
  // Traversal expressions

  /** `operator_at_traversal_path` as written: the column, then `->%s` for
      each key but the last, then `op%s` for the last key. */
  function OperatorAtTraversalPath(path: seq<string>, op: string): string
    requires |path| >= 1
  {
    var fmt := [path[0]] + Repeat("%s", |path| - 1);
    Join("->", fmt[..|fmt| - 1]) + op + "%s"
  }

  /** The traversal the rest of the model uses: as written for paths with
      at least one key; a path with no key is the column itself. */
  function TraversalPath(path: seq<string>, op: string): string
    requires |path| >= 1
  {
    if |path| == 1 then path[0] else OperatorAtTraversalPath(path, op)
  }

  /** `extract_value_at_path`, corrected for a one-element path: the value
      at the path, as text, and the column itself when there is no key
      (see `RootRuleAsWritten` for the code as written). */
  function ExtractValueAtPath(path: seq<string>): string
    requires |path| >= 1
  {
    TraversalPath(path, "->>")
  }

  /** `contains_key_at_path`, corrected for a one-element path in the same
      way: does the parent of the last key hold it. */
  function ContainsKeyAtPath(path: seq<string>): string
    requires |path| >= 1
  {
    TraversalPath(path, "?")
  }

  /** `->%s` once per key. */
  function Arrows(n: nat): string
  {
    if n == 0 then "" else "->%s" + Arrows(n - 1)
  }

  /** What follows the column in a traversal over n + 1 keys. */
  function TraversalTail(n: nat, op: string): string
  {
    Arrows(n) + op + "%s"
  }

  /** The text a traversal stands for once its keys are bound: the column,
      `->k` for each key but the last, `op` and the last key. */
  function Walk(column: string, ks: seq<string>, op: string): string
  {
    column + WalkTail(ks, op)
  }

  function WalkTail(ks: seq<string>, op: string): string
  {
    if |ks| == 0 then ""
    else if |ks| == 1 then op + ks[0]
    else "->" + ks[0] + WalkTail(ks[1..], op)
  }

  lemma {:induction false} JoinSlots(c: string, n: nat)
    ensures Join("->", [c] + Repeat("%s", n)) == c + Arrows(n)
    decreases n
  {
    if n > 0 {
      var xs := [c] + Repeat("%s", n);
      assert xs[1..] == Repeat("%s", n) == ["%s"] + Repeat("%s", n - 1);
      if n == 1 {
        assert Join("->", xs) == c + "->" + Join("->", ["%s"]);
      } else {
        JoinSlots("%s", n - 1);
        assert Join("->", xs) == c + "->" + Join("->", xs[1..]);
      }
    }
  }

  /** For a path `[c, k1, .., kn]` with n >= 1 the traversal is `c`, then
      `->%s` for each of k1..k(n-1), then `op%s`. */
  lemma TraversalShape(path: seq<string>, op: string)
    requires |path| >= 2
    ensures OperatorAtTraversalPath(path, op) == path[0] + TraversalTail(|path| - 2, op)
  {
    var fmt := [path[0]] + Repeat("%s", |path| - 1);
    assert fmt[..|fmt| - 1] == [path[0]] + Repeat("%s", |path| - 2);
    JoinSlots(path[0], |path| - 2);
    assert path[0] + Arrows(|path| - 2) + op + "%s" == path[0] + (Arrows(|path| - 2) + op + "%s");
  }

  lemma ArrowStep(rest: string, k: string, args: seq<string>)
    requires Interpolate(rest, args).Some?
    ensures Interpolate("->" + ("%s" + rest), [k] + args) == Some("->" + (k + Interpolate(rest, args).value))
  {
    assert '%' !in "->";
    InterpolateLiteral("->");
    InterpolateSlot(k);
    InterpolateBoth("%s", rest, [k], args);
    InterpolateBoth("->", "%s" + rest, [], [k] + args);
    assert [] + ([k] + args) == [k] + args;
  }

  /** The part of a traversal after the column binds its keys to the text
      that follows the column in `Walk`. */
  lemma {:induction false} TailBinds(ks: seq<string>, last: string, op: string)
    requires '%' !in op
    ensures Interpolate(TraversalTail(|ks|, op), ks + [last]) == Some(WalkTail(ks + [last], op))
    decreases |ks|
  {
    if |ks| == 0 {
      assert TraversalTail(0, op) == op + "%s";
      InterpolateLiteral(op);
      InterpolateSlot(last);
      InterpolateBoth(op, "%s", [], [last]);
      assert [] + [last] == [last] == ks + [last];
    } else {
      TailBinds(ks[1..], last, op);
      var rest := TraversalTail(|ks| - 1, op);
      assert TraversalTail(|ks|, op) == "->" + ("%s" + rest);
      assert ks + [last] == [ks[0]] + (ks[1..] + [last]);
      ArrowStep(rest, ks[0], ks[1..] + [last]);
      assert (ks + [last])[1..] == ks[1..] + [last];
      assert "->" + ks[0] + WalkTail(ks[1..] + [last], op) == "->" + (ks[0] + WalkTail(ks[1..] + [last], op));
    }
  }

  /** A path with keys binds them in order after the column. */
  lemma KeysTraversalBinds(path: seq<string>, op: string, xs: seq<string>)
    requires |path| >= 2 && |xs| == |path| - 1
    requires '%' !in path[0] && '%' !in op
    ensures Interpolate(OperatorAtTraversalPath(path, op), xs) == Some(Walk(path[0], xs, op))
  {
    TraversalShape(path, op);
    TailBindsAll(xs, op);
    ColumnBinds(path[0], TraversalTail(|path| - 2, op), xs, WalkTail(xs, op));
  }

  /** `TailBinds` for the keys and the last key together. */
  lemma TailBindsAll(xs: seq<string>, op: string)
    requires |xs| >= 1 && '%' !in op
    ensures Interpolate(TraversalTail(|xs| - 1, op), xs) == Some(WalkTail(xs, op))
  {
    var ks, last := xs[..|xs| - 1], xs[|xs| - 1];
    assert xs == ks + [last];
    TailBinds(ks, last, op);
  }

  /** A column in front of a template binds nothing. */
  lemma ColumnBinds(c: string, t: string, xs: seq<string>, w: string)
    requires '%' !in c
    requires Interpolate(t, xs) == Some(w)
    ensures Interpolate(c + t, xs) == Some(c + w)
  {
    InterpolateLiteral(c);
    InterpolateBoth(c, t, [], xs);
    assert [] + xs == xs;
  }

  /** The i-th placeholder of a traversal receives the i-th key: bound to
      its keys, the traversal reads as the column, `->k` for each key but
      the last, and `op` with the last key. */
  lemma TraversalBinds(path: seq<string>, op: string, xs: seq<string>)
    requires |path| >= 1 && |xs| == |path| - 1
    requires '%' !in path[0] && '%' !in op
    ensures Interpolate(TraversalPath(path, op), xs) == Some(Walk(path[0], xs, op))
  {
    if |path| == 1 {
      InterpolateLiteral(path[0]);
      assert xs == [];
      assert Walk(path[0], xs, op) == path[0] + "" == path[0];
    } else {
      KeysTraversalBinds(path, op, xs);
    }
  }

  /** A traversal has one placeholder per key of the path. */
  lemma TraversalPlaceholders(path: seq<string>, op: string)
    requires |path| >= 1
    requires '%' !in path[0] && '%' !in op
    ensures Placeholders(TraversalPath(path, op)) == |path| - 1
  {
    var xs := Repeat("", |path| - 1);
    TraversalBinds(path, op, xs);
    InterpolateArity(TraversalPath(path, op), xs);
  }

  /** The single-element path the traversal of `grout/lookups.py` gets
      wrong: the column is dropped and a placeholder is left for a key the
      path does not have (see `RootRuleAsWritten`). */
  lemma SingleElementTraversal(column: string, op: string)
    requires '%' !in op
    ensures OperatorAtTraversalPath([column], op) == op + "%s"
    ensures Placeholders(OperatorAtTraversalPath([column], op)) == 1
    ensures TraversalPath([column], op) == column
  {
    var fmt := [column] + Repeat("%s", 0);
    assert fmt[..|fmt| - 1] == [];
    assert OperatorAtTraversalPath([column], op) == "" + op + "%s" == op + "%s";
    InterpolateLiteral(op);
    InterpolateSlot("");
    InterpolateBoth(op, "%s", [], [""]);
    assert [] + [""] == [""];
    InterpolateArity(op + "%s", [""]);
  }

  // ---------------------------------------------------------------------
  // Containment literals

  /** `reconstruct_object`: one `{%s: ...}` level per key around a final
      `%s` for the value. */
  function ReconstructObject(path: seq<string>): string
  {
    if |path| == 0 then "%s" else "{" + "%s" + ": " + ReconstructObject(path[1..]) + "}"
  }

  /** `reconstruct_object_multiple`: as `ReconstructObject`, except that the
      object holding the last key sits inside a one-element list. */
  function ReconstructObjectMultiple(path: seq<string>): string
  {
    if |path| == 0 then "%s"
    else if |path| == 2 then "{" + "%s" + ": [" + ReconstructObjectMultiple(path[1..]) + "]}"
    else "{" + "%s" + ": " + ReconstructObjectMultiple(path[1..]) + "}"
  }

  /** The value `v` nested under the keys: `{k1: {k2: ... {kn: v}}}`. */
  function Nest(ks: seq<string>, v: Json): Json
  {
    if |ks| == 0 then v else JObj([Member(ks[0], Nest(ks[1..], v))])
  }

  /** The value `v` under the keys, where the second-to-last key holds a
      list of objects: `{k1: ... {k(n-1): [{kn: v}]}}`. */
  function NestInArray(ks: seq<string>, v: Json): Json
  {
    if |ks| < 2 then Nest(ks, v)
    else Nest(ks[..|ks| - 2], JObj([Member(ks[|ks| - 2], JArr([JObj([Member(ks[|ks| - 1], v)])]))]))
  }

  /** `[json.dumps(k) for k in keys]`. */
  function DumpsKeys(ks: seq<string>): (r: seq<string>)
    ensures |r| == |ks|
    ensures forall i :: 0 <= i < |ks| ==> r[i] == Dumps(JStr(ks[i]))
  {
    if |ks| == 0 then [] else [Dumps(JStr(ks[0]))] + DumpsKeys(ks[1..])
  }

  /** One `{%s<open>T<close>` level binds its key before the arguments
      of `T`. */
  lemma KeyLevel(open: string, t: string, close: string, k: string, xs: seq<string>)
    requires '%' !in open && '%' !in close
    requires Interpolate(t, xs).Some?
    ensures Interpolate("{" + "%s" + open + t + close, [k] + xs) ==
            Some("{" + k + open + Interpolate(t, xs).value + close)
  {
    assert '%' !in "{";
    InterpolateLiteral("{");
    InterpolateSlot(k);
    InterpolateBoth("{", "%s", [], [k]);
    assert [] + [k] == [k];
    InterpolateLiteral(open);
    InterpolateBoth("{" + "%s", open, [k], []);
    assert [k] + [] == [k];
    InterpolateBoth("{" + "%s" + open, t, [k], xs);
    InterpolateLiteral(close);
    InterpolateBoth("{" + "%s" + open + t, close, [k] + xs, []);
    assert [k] + xs + [] == [k] + xs;
  }

  /** `{"k": [d]}` is the one-member object whose value is the list `[d]`. */
  lemma ListSpelling(q: string, d: string)
    ensures "{" + q + ": [" + d + "]}" == "{" + q + ": " + ("[" + d + "]") + "}"
  {
    assert ": [" == ": " + "[";
    assert "]}" == "]" + "}";
  }

  /** The containment literal round trip: filling the template of
      `reconstruct_object` with the serialized keys and value gives exactly
      the serialization of the value nested under the keys. */
  lemma {:induction false} ReconstructObjectBinds(ks: seq<string>, v: Json)
    ensures Interpolate(ReconstructObject(ks), DumpsKeys(ks) + [Dumps(v)]) == Some(Dumps(Nest(ks, v)))
  {
    if |ks| == 0 {
      assert DumpsKeys(ks) + [Dumps(v)] == [Dumps(v)];
      InterpolateSlot(Dumps(v));
    } else {
      ReconstructObjectBinds(ks[1..], v);
      assert DumpsKeys(ks) + [Dumps(v)] == [Dumps(JStr(ks[0]))] + (DumpsKeys(ks[1..]) + [Dumps(v)]);
      assert '%' !in ": " && '%' !in "}";
      KeyLevel(": ", ReconstructObject(ks[1..]), "}", Dumps(JStr(ks[0])), DumpsKeys(ks[1..]) + [Dumps(v)]);
      DumpsSingleMember(ks[0], Nest(ks[1..], v));
    }
  }

  /** `reconstruct_object` has one placeholder per key and one for the value. */
  lemma ReconstructObjectPlaceholders(ks: seq<string>)
    ensures Placeholders(ReconstructObject(ks)) == |ks| + 1
  {
    ReconstructObjectBinds(ks, JNull);
    InterpolateArity(ReconstructObject(ks), DumpsKeys(ks) + [Dumps(JNull)]);
  }

  lemma NestSplit(ks: seq<string>, v: Json)
    requires |ks| >= 3
    ensures NestInArray(ks, v) == JObj([Member(ks[0], NestInArray(ks[1..], v))])
  {
    var inner := JObj([Member(ks[|ks| - 2], JArr([JObj([Member(ks[|ks| - 1], v)])]))]);
    assert ks[..|ks| - 2][1..] == ks[1..][..|ks[1..]| - 2];
    assert ks[1..][|ks[1..]| - 2] == ks[|ks| - 2];
    assert ks[1..][|ks[1..]| - 1] == ks[|ks| - 1];
  }

  /** Two keys: the value sits in a one-element list of one-key objects. */
  lemma MultipleTwoKeys(k0: string, k1: string, v: Json)
    ensures Interpolate(ReconstructObjectMultiple([k0, k1]), DumpsKeys([k0, k1]) + [Dumps(v)]) ==
            Some(Dumps(NestInArray([k0, k1], v)))
  {
    var ks := [k0, k1];
    var inner := JObj([Member(k1, v)]);
    assert ks[1..] == [k1];
    assert ReconstructObjectMultiple(ks[1..]) == ReconstructObject([k1]);
    assert ReconstructObjectMultiple(ks) == "{" + "%s" + ": [" + ReconstructObject([k1]) + "]}";
    ReconstructObjectBinds([k1], v);
    assert Nest([k1], v) == inner;
    var rest := DumpsKeys([k1]) + [Dumps(v)];
    assert DumpsKeys(ks) + [Dumps(v)] == [Dumps(JStr(k0))] + rest;
    assert '%' !in ": [" && '%' !in "]}";
    KeyLevel(": [", ReconstructObject([k1]), "]}", Dumps(JStr(k0)), rest);
    assert ks[..0] == [];
    assert NestInArray(ks, v) == JObj([Member(k0, JArr([inner]))]);
    DumpsSingleItem(inner);
    DumpsSingleMember(k0, JArr([inner]));
    ListSpelling(QuoteString(k0), Dumps(inner));
  }

  /** One key: no list, the plain object. */
  lemma MultipleOneKey(ks: seq<string>, v: Json)
    requires |ks| == 1
    ensures Interpolate(ReconstructObjectMultiple(ks), DumpsKeys(ks) + [Dumps(v)]) == Some(Dumps(NestInArray(ks, v)))
  {
    ReconstructObjectBinds(ks, v);
    assert ReconstructObjectMultiple(ks[1..]) == "%s" == ReconstructObject(ks[1..]);
  }

  /** Serializing the keys peels off the first one. */
  lemma DumpsKeysCons(ks: seq<string>, tail: seq<string>)
    requires |ks| >= 1
    ensures DumpsKeys(ks) + tail == [Dumps(JStr(ks[0]))] + (DumpsKeys(ks[1..]) + tail)
  {
    var h := [Dumps(JStr(ks[0]))];
    var d := DumpsKeys(ks[1..]);
    assert DumpsKeys(ks) == h + d;
    ConcatAssoc(h, d, tail);
  }

  lemma ConcatAssoc(a: seq<string>, b: seq<string>, c: seq<string>)
    ensures a + b + c == a + (b + c)
  {
  }

  /** Three or more keys: the template is an object level around the rest. */
  lemma MultipleTemplate(ks: seq<string>)
    requires |ks| >= 3
    ensures ReconstructObjectMultiple(ks) == "{" + "%s" + ": " + ReconstructObjectMultiple(ks[1..]) + "}"
  {
  }

  /** Three or more keys: the nested value is a one-member object around the
      rest. */
  lemma NestInArrayDumps(ks: seq<string>, v: Json)
    requires |ks| >= 3
    ensures Dumps(NestInArray(ks, v)) == "{" + QuoteString(ks[0]) + ": " + Dumps(NestInArray(ks[1..], v)) + "}"
  {
    NestSplit(ks, v);
    DumpsSingleMember(ks[0], NestInArray(ks[1..], v));
  }

  /** One object level: a template `{%s: T}` whose `T` renders `x` renders
      the key's serialization followed by `x`. */
  lemma ObjectStep(k: string, t: string, rest: seq<string>, x: string)
    requires Interpolate(t, rest) == Some(x)
    ensures Interpolate("{" + "%s" + ": " + t + "}", [Dumps(JStr(k))] + rest) == Some("{" + QuoteString(k) + ": " + x + "}")
  {
    assert '%' !in ": " && '%' !in "}";
    KeyLevel(": ", t, "}", Dumps(JStr(k)), rest);
  }

  /** The same round trip for `reconstruct_object_multiple`: the template
      filled in gives the serialization of the value under the keys with
      the last object wrapped in a one-element list. */
  lemma {:induction false} ReconstructObjectMultipleBinds(ks: seq<string>, v: Json)
    ensures Interpolate(ReconstructObjectMultiple(ks), DumpsKeys(ks) + [Dumps(v)]) == Some(Dumps(NestInArray(ks, v)))
  {
    if |ks| == 0 {
      assert DumpsKeys(ks) + [Dumps(v)] == [Dumps(v)];
      InterpolateSlot(Dumps(v));
    } else if |ks| == 1 {
      MultipleOneKey(ks, v);
    } else if |ks| == 2 {
      assert ks == [ks[0], ks[1]];
      MultipleTwoKeys(ks[0], ks[1], v);
    } else {
      ReconstructObjectMultipleBinds(ks[1..], v);
      DumpsKeysCons(ks, [Dumps(v)]);
      MultipleTemplate(ks);
      NestInArrayDumps(ks, v);
      ObjectStep(ks[0], ReconstructObjectMultiple(ks[1..]), DumpsKeys(ks[1..]) + [Dumps(v)], Dumps(NestInArray(ks[1..], v)));
    }
  }

  /** `reconstruct_object_multiple` also has one placeholder per key and
      one for the value. */
  lemma ReconstructObjectMultiplePlaceholders(ks: seq<string>)
    ensures Placeholders(ReconstructObjectMultiple(ks)) == |ks| + 1
  {
    ReconstructObjectMultipleBinds(ks, JNull);
    InterpolateArity(ReconstructObjectMultiple(ks), DumpsKeys(ks) + [Dumps(JNull)]);
  }

  // ---------------------------------------------------------------------
  // intrange

  /** `k in rule and rule[k] is not None`. */
  predicate HasBound(rule: seq<Member>, k: string)
  {
    Get(rule, k).Some? && Get(rule, k).value != JNull
  }

  /** The bound under `k`, or null when there is none. */
  function Bound(rule: seq<Member>, k: string): (r: Json)
    ensures HasBound(rule, k) <==> r != JNull
    ensures HasBound(rule, k) ==> r == Get(rule, k).value
  {
    if HasBound(rule, k) then Get(rule, k).value else JNull
  }

  /** `intrange_filter` over a given traversal expression and the keys it
      takes: `max` is checked before `min` when both are present, and the
      keys are bound once per comparison. */
  function IntrangeWith(traversal: string, keys: seq<string>, rule: seq<Member>): (r: Option<Fragment>)
  {
    var traversedInt := "(" + traversal + ")::int";
    var hasMin := HasBound(rule, "min");
    var hasMax := HasBound(rule, "max");
    var moreThan := traversedInt + " >= " + "%s";
    var lessThan := traversedInt + " <= " + "%s";
    var branch := KeyParams(keys);
    if hasMin && !hasMax then
      Some(Fragment("(" + moreThan + ")", branch + [Get(rule, "min").value]))
    else if hasMax && !hasMin then
      Some(Fragment("(" + lessThan + ")", branch + [Get(rule, "max").value]))
    else if hasMax && hasMin then
      Some(Fragment("(" + lessThan + " AND " + moreThan + ")",
                    branch + [Get(rule, "max").value] + branch + [Get(rule, "min").value]))
    else
      None
  }

  /** `intrange_filter(path, rule)`: the value at the path, cast to an
      integer, compared with the bounds the rule gives. */
  function IntrangeFilter(path: seq<string>, rule: seq<Member>): Option<Fragment>
    requires |path| >= 1
  {
    IntrangeWith(ExtractValueAtPath(path), path[1..], rule)
  }

  /** One comparison `(T)::int <op> %s` with the traversal's keys and the
      bound bound in order. */
  lemma CompareBinds(traversal: string, xs: seq<string>, cmp: string, a: string)
    requires '%' !in cmp
    requires Interpolate(traversal, xs).Some?
    ensures Interpolate("(" + traversal + ")::int" + cmp + "%s", xs + [a]) ==
            Some("(" + Interpolate(traversal, xs).value + ")::int" + cmp + a)
  {
    assert '%' !in "(" && '%' !in ")::int";
    InterpolateWrap("(", traversal, ")::int", xs);
    InterpolateSuffixSlot("(" + traversal + ")::int", cmp, xs, a);
  }

  /** Two bound templates joined by `AND` inside parentheses. */
  lemma ConjunctionBinds(l: string, m: string, p: seq<string>, q: seq<string>)
    requires Interpolate(l, p).Some? && Interpolate(m, q).Some?
    ensures Interpolate("(" + l + " AND " + m + ")", p + q) ==
            Some("(" + Interpolate(l, p).value + " AND " + Interpolate(m, q).value + ")")
  {
    assert '%' !in "(" && '%' !in " AND " && '%' !in ")" && '%' !in "";
    InterpolateWrap("(", l, " AND ", p);
    InterpolateBoth("(" + l + " AND ", m, p, q);
    InterpolateWrap("", "(" + l + " AND " + m, ")", p + q);
    assert "" + ("(" + l + " AND " + m) + ")" == "(" + l + " AND " + m + ")";
    assert "" + ("(" + Interpolate(l, p).value + " AND " + Interpolate(m, q).value) + ")" ==
           "(" + Interpolate(l, p).value + " AND " + Interpolate(m, q).value + ")";
  }

  /** The integer at the path as a bound SQL expression. */
  function IntAt(path: seq<string>, lit: Json -> string): string
    requires |path| >= 1
  {
    "(" + Walk(path[0], Literals(KeyParams(path[1..]), lit), "->>") + ")::int"
  }

  /** One comparison on the integer at the path, bound to the path's keys
      and then the bound. */
  lemma ComparisonAt(path: seq<string>, cmp: string, b: Json, lit: Json -> string)
    requires |path| >= 1 && '%' !in path[0] && '%' !in cmp
    ensures Interpolate("(" + ExtractValueAtPath(path) + ")::int" + cmp + "%s", Literals(KeyParams(path[1..]), lit) + [lit(b)]) ==
            Some(IntAt(path, lit) + cmp + lit(b))
  {
    var keys := Literals(KeyParams(path[1..]), lit);
    TraversalBinds(path, "->>", keys);
    CompareBinds(ExtractValueAtPath(path), keys, cmp, lit(b));
  }

  /** A one-sided range: `(T)::int <cmp> %s` in parentheses, with the keys
      and then the bound as parameters. */
  lemma OneSided(path: seq<string>, cmp: string, b: Json, lit: Json -> string)
    requires |path| >= 1 && '%' !in path[0] && '%' !in cmp
    ensures Render(Fragment("(" + ("(" + ExtractValueAtPath(path) + ")::int" + cmp + "%s") + ")", KeyParams(path[1..]) + [b]), lit) ==
            Some("(" + (IntAt(path, lit) + cmp + lit(b)) + ")")
  {
    ComparisonAt(path, cmp, b, lit);
    LiteralsAppend(KeyParams(path[1..]), [b], lit);
    assert Literals([b], lit) == [lit(b)];
    assert '%' !in "(" && '%' !in ")";
    InterpolateWrap("(", "(" + ExtractValueAtPath(path) + ")::int" + cmp + "%s", ")", Literals(KeyParams(path[1..]), lit) + [lit(b)]);
  }

  lemma IntrangeLower(path: seq<string>, rule: seq<Member>, lit: Json -> string)
    requires |path| >= 1 && '%' !in path[0]
    requires HasBound(rule, "min") && !HasBound(rule, "max")
    ensures Render(IntrangeFilter(path, rule).value, lit) == Some("(" + (IntAt(path, lit) + " >= " + lit(Bound(rule, "min"))) + ")")
  {
    assert '%' !in " >= ";
    var t := "(" + ExtractValueAtPath(path) + ")::int";
    assert IntrangeFilter(path, rule).value == Fragment("(" + (t + " >= " + "%s") + ")", KeyParams(path[1..]) + [Bound(rule, "min")]);
    OneSided(path, " >= ", Bound(rule, "min"), lit);
  }

  lemma IntrangeUpper(path: seq<string>, rule: seq<Member>, lit: Json -> string)
    requires |path| >= 1 && '%' !in path[0]
    requires !HasBound(rule, "min") && HasBound(rule, "max")
    ensures Render(IntrangeFilter(path, rule).value, lit) == Some("(" + (IntAt(path, lit) + " <= " + lit(Bound(rule, "max"))) + ")")
  {
    assert '%' !in " <= ";
    var t := "(" + ExtractValueAtPath(path) + ")::int";
    assert IntrangeFilter(path, rule).value == Fragment("(" + (t + " <= " + "%s") + ")", KeyParams(path[1..]) + [Bound(rule, "max")]);
    OneSided(path, " <= ", Bound(rule, "max"), lit);
  }

  /** A two-sided range: both comparisons joined by `AND`, the keys bound
      once for each. */
  lemma TwoSided(path: seq<string>, lo: Json, hi: Json, lit: Json -> string)
    requires |path| >= 1 && '%' !in path[0]
    ensures var t := "(" + ExtractValueAtPath(path) + ")::int";
      var branch := KeyParams(path[1..]);
      Render(Fragment("(" + (t + " <= " + "%s") + " AND " + (t + " >= " + "%s") + ")", branch + [hi] + branch + [lo]), lit) ==
      Some("(" + (IntAt(path, lit) + " <= " + lit(hi)) + " AND " + (IntAt(path, lit) + " >= " + lit(lo)) + ")")
  {
    var t := "(" + ExtractValueAtPath(path) + ")::int";
    var branch := KeyParams(path[1..]);
    var keys := Literals(branch, lit);
    assert '%' !in " >= " && '%' !in " <= ";
    ComparisonAt(path, " <= ", hi, lit);
    ComparisonAt(path, " >= ", lo, lit);
    ConjunctionBinds(t + " <= " + "%s", t + " >= " + "%s", keys + [lit(hi)], keys + [lit(lo)]);
    assert branch + [hi] + branch + [lo] == (branch + [hi]) + (branch + [lo]);
    LiteralsAppend(branch + [hi], branch + [lo], lit);
    LiteralsAppend(branch, [hi], lit);
    LiteralsAppend(branch, [lo], lit);
    assert Literals([hi], lit) == [lit(hi)] && Literals([lo], lit) == [lit(lo)];
  }

  lemma IntrangeBetween(path: seq<string>, rule: seq<Member>, lit: Json -> string)
    requires |path| >= 1 && '%' !in path[0]
    requires HasBound(rule, "min") && HasBound(rule, "max")
    ensures Render(IntrangeFilter(path, rule).value, lit) ==
      Some("(" + (IntAt(path, lit) + " <= " + lit(Bound(rule, "max"))) + " AND " + (IntAt(path, lit) + " >= " + lit(Bound(rule, "min"))) + ")")
  {
    TwoSided(path, Bound(rule, "min"), Bound(rule, "max"), lit);
  }

  /** The SQL an `intrange` rule stands for once its parameters are bound:
      `max` is an upper and `min` a lower bound on the integer at the path,
      both bounds must hold when both are given, and a rule without either
      bound compiles to nothing. */
  lemma IntrangeRenders(path: seq<string>, rule: seq<Member>, lit: Json -> string)
    requires |path| >= 1 && '%' !in path[0]
    ensures IntrangeFilter(path, rule).None? <==> !HasBound(rule, "min") && !HasBound(rule, "max")
    ensures IntrangeFilter(path, rule).Some? ==>
      var lower := IntAt(path, lit) + " >= " + lit(Bound(rule, "min"));
      var upper := IntAt(path, lit) + " <= " + lit(Bound(rule, "max"));
      Render(IntrangeFilter(path, rule).value, lit) ==
        Some(if !HasBound(rule, "max") then "(" + lower + ")"
             else if !HasBound(rule, "min") then "(" + upper + ")"
             else "(" + upper + " AND " + lower + ")")
  {
    var hasMin, hasMax := HasBound(rule, "min"), HasBound(rule, "max");
    if hasMin && !hasMax {
      IntrangeLower(path, rule, lit);
    } else if hasMax && !hasMin {
      IntrangeUpper(path, rule, lit);
    } else if hasMax && hasMin {
      IntrangeBetween(path, rule, lit);
    }
  }

  // ---------------------------------------------------------------------
  // containment and containment_multiple

  /** The JSON text one `contains` item is compared with: the item nested
      under the keys, with the last object inside a list for
      `containment_multiple`. */
  function ContainmentLiteral(keys: seq<string>, item: Json, multiple: bool): Json
  {
    JStr(Dumps(if multiple then NestInArray(keys, item) else Nest(keys, item)))
  }

  /** One containment literal per item, in order. */
  function ContainmentParams(keys: seq<string>, items: seq<Json>, multiple: bool): (r: seq<Json>)
    ensures |r| == |items|
    ensures forall i :: 0 <= i < |items| ==> r[i] == ContainmentLiteral(keys, items[i], multiple)
  {
    if |items| == 0 then []
    else ContainmentParams(keys, items[..|items| - 1], multiple) + [ContainmentLiteral(keys, items[|items| - 1], multiple)]
  }

  /** What `containment_filter` (`multiple` false) and
      `multiple_containment_filter` (`multiple` true) return: nothing
      without a `contains` key or with an empty one, a TypeError when it
      cannot be iterated, and otherwise one `column @> %s` test per item
      joined by `OR`. */
  function ContainmentFragment(path: seq<string>, rule: seq<Member>, multiple: bool): Result<Option<Fragment>, Error>
    requires |path| >= 1
  {
    var leaf, branch := path[0], path[1..];
    if !HasKey(rule, "contains") then Ok(None)
    else
      match Iterate(Get(rule, "contains").value)
      case None => Err(ContainsNotIterable)
      case Some(items) =>
        var containsStr := Join(" OR ", Repeat(leaf + " @> " + "%s", |items|));
        if containsStr != "" then Ok(Some(Fragment("(" + containsStr + ")", ContainmentParams(branch, items, multiple))))
        else Ok(None)
  }

  /** The template the containment filters fill in. */
  function ContainmentTemplate(keys: seq<string>, multiple: bool): string
  {
    if multiple then ReconstructObjectMultiple(keys) else ReconstructObject(keys)
  }

  lemma ContainmentTemplateBinds(keys: seq<string>, item: Json, multiple: bool)
    ensures Interpolate(ContainmentTemplate(keys, multiple), DumpsKeys(keys) + [Dumps(item)]) ==
            Some(ContainmentLiteral(keys, item, multiple).s)
  {
    if multiple {
      ReconstructObjectMultipleBinds(keys, item);
    } else {
      ReconstructObjectBinds(keys, item);
    }
  }

  /** `containment_filter` and `multiple_containment_filter`: the template
      is filled in once per item, and its `%` never fails because the
      template has one placeholder per key and one for the item. */
  method CompileContainment(path: seq<string>, rule: seq<Member>, multiple: bool) returns (r: Result<Option<Fragment>, Error>)
    requires |path| >= 1
    ensures r == ContainmentFragment(path, rule, multiple)
  {
    var leaf, branch := path[0], path[1..];
    var template := ContainmentTemplate(branch, multiple);
    var abstractContainsStr := leaf + " @> " + "%s";
    if !HasKey(rule, "contains") {
      return Ok(None);
    }
    var allContained := Iterate(Get(rule, "contains").value);
    if allContained.None? {
      return Err(ContainsNotIterable);
    }
    var items := allContained.value;
    var containsParams: seq<Json> := [];
    var jsonPath := DumpsKeys(branch);
    var i := 0;
    while i < |items|
      invariant 0 <= i <= |items|
      invariant containsParams == ContainmentParams(branch, items[..i], multiple)
    {
      var interpolants := jsonPath + [Dumps(items[i])];
      ContainmentTemplateBinds(branch, items[i], multiple);
      var rendered := Interpolate(template, interpolants).value;
      assert items[..i + 1][..i] == items[..i];
      containsParams := containsParams + [JStr(rendered)];
      i := i + 1;
    }
    assert items[..i] == items;
    var containsStr := Join(" OR ", Repeat(abstractContainsStr, |items|));
    if containsStr != "" {
      r := Ok(Some(Fragment("(" + containsStr + ")", containsParams)));
    } else {
      r := Ok(None);
    }
  }

  /** `n` copies of `c%s` joined by `sep`, bound to `n` arguments, give
      `c` followed by each argument in turn. */
  lemma {:induction false} RepeatedSlotsBind(sep: string, c: string, xs: seq<string>)
    requires '%' !in sep && '%' !in c
    ensures Interpolate(Join(sep, Repeat(c + "%s", |xs|)), xs) ==
            Some(Join(sep, seq(|xs|, i requires 0 <= i < |xs| => c + xs[i])))
    decreases |xs|
  {
    var cs := seq(|xs|, i requires 0 <= i < |xs| => c + xs[i]);
    if |xs| == 0 {
    } else {
      assert Interpolate(c + "%s", [xs[0]]) == Some(c + xs[0]) by {
        InterpolateLiteral("");
        InterpolateSuffixSlot("", c, [], xs[0]);
        assert "" + c + "%s" == c + "%s";
        assert "" + c + xs[0] == c + xs[0];
        assert [] + [xs[0]] == [xs[0]];
      }
      if |xs| == 1 {
        assert Repeat(c + "%s", 1) == [c + "%s"];
        assert Join(sep, [c + "%s"]) == c + "%s";
        assert xs == [xs[0]];
        assert cs == [c + xs[0]];
        assert Join(sep, cs) == c + xs[0];
      } else {
        RepeatedSlotsBind(sep, c, xs[1..]);
        var ts := Repeat(c + "%s", |xs|);
        assert ts[1..] == Repeat(c + "%s", |xs| - 1);
        assert Join(sep, ts) == (c + "%s") + sep + Join(sep, ts[1..]);
        InterpolateLiteral(sep);
        InterpolateBoth(c + "%s", sep, [xs[0]], []);
        assert [xs[0]] + [] == [xs[0]];
        InterpolateBoth(c + "%s" + sep, Join(sep, ts[1..]), [xs[0]], xs[1..]);
        assert [xs[0]] + xs[1..] == xs;
        var tail := seq(|xs[1..]|, i requires 0 <= i < |xs[1..]| => c + xs[1..][i]);
        assert tail == cs[1..];
        assert Join(sep, cs) == cs[0] + sep + Join(sep, cs[1..]);
      }
    }
  }

  /** The SQL a containment rule stands for once its parameters are bound:
      the column contains at least one of the items, each nested under the
      rule's keys (inside a list at the last level for
      `containment_multiple`); a rule without a `contains` key or with an
      empty one compiles to nothing, and one whose `contains` cannot be
      iterated fails. */
  lemma ContainmentRenders(path: seq<string>, rule: seq<Member>, multiple: bool, lit: Json -> string)
    requires |path| >= 1 && '%' !in path[0]
    ensures var r := ContainmentFragment(path, rule, multiple);
      && (r.Err? <==> HasKey(rule, "contains") && Iterate(Get(rule, "contains").value).None?)
      && (r == Ok(None) <==> !HasKey(rule, "contains") || Iterate(Get(rule, "contains").value) == Some([]))
      && (r.Ok? && r.value.Some? ==>
           var items := Iterate(Get(rule, "contains").value).value;
           Render(r.value.value, lit) ==
             Some("(" + Join(" OR ", seq(|items|, i requires 0 <= i < |items| =>
                                         path[0] + " @> " + lit(ContainmentLiteral(path[1..], items[i], multiple))))
                  + ")"))
  {
    if HasKey(rule, "contains") && Iterate(Get(rule, "contains").value).Some? {
      var items := Iterate(Get(rule, "contains").value).value;
      var c := path[0] + " @> ";
      assert path[0] + " @> " + "%s" == c + "%s";
      if |items| > 0 {
        var lits := Literals(ContainmentParams(path[1..], items, multiple), lit);
        assert '%' !in " @> ";
        AlternativesRender(c, lits);
        var want := seq(|items|, i requires 0 <= i < |items| =>
                         path[0] + " @> " + lit(ContainmentLiteral(path[1..], items[i], multiple)));
        assert seq(|lits|, i requires 0 <= i < |lits| => c + lits[i]) == want;
      } else {
        assert Repeat(c + "%s", 0) == [];
      }
    }
  }

  /** One or more alternatives `c%s` joined by `OR` and parenthesized,
      bound to one argument each. */
  lemma AlternativesRender(c: string, lits: seq<string>)
    requires '%' !in c && |lits| > 0
    ensures Join(" OR ", Repeat(c + "%s", |lits|)) != ""
    ensures Interpolate("(" + Join(" OR ", Repeat(c + "%s", |lits|)) + ")", lits) ==
            Some("(" + Join(" OR ", seq(|lits|, i requires 0 <= i < |lits| => c + lits[i])) + ")")
  {
    var ts := Repeat(c + "%s", |lits|);
    assert ts[0] == c + "%s";
    if |lits| > 1 {
      assert Join(" OR ", ts) == ts[0] + " OR " + Join(" OR ", ts[1..]);
    }
    assert '%' !in " OR ";
    RepeatedSlotsBind(" OR ", c, lits);
    assert '%' !in "(" && '%' !in ")";
    InterpolateWrap("(", Join(" OR ", ts), ")", lits);
  }

  // ---------------------------------------------------------------------
  // Pattern terms

  /** The regular expression a `containment_multiple` pattern term becomes:
      the last key as a quoted JSON key, then a string value containing the
      term. */
  function ArrayMemberRegex(key: string, term: string): string
  {
    ReEscape(key) + "\": \"([^\"]*?" + ReEscape(term) + ".*?)\""
  }

  /** `text_similarity_filter(path, term, multiple)`: a case-insensitive
      regular-expression match on the text at the path (at the parent of
      the last key, for `containment_multiple`). A one-element path cannot
      drop its last element in the multiple form: IndexError. */
  function TextSimilarityFilter(path: seq<string>, term: string, multiple: bool): (r: Result<Fragment, Error>)
    requires |path| >= 1
  {
    if multiple then
      if |path| == 1 then Err(PathIndexError)
      else
        var traversedText := "(" + ExtractValueAtPath(path[..|path| - 1]) + ")";
        Ok(Fragment(traversedText + "::text ~* " + "%s",
                    KeyParams(path[1..|path| - 1]) + [JStr(ArrayMemberRegex(path[|path| - 1], term))]))
    else
      var traversedText := "(" + ExtractValueAtPath(path) + ")";
      Ok(Fragment(traversedText + "::text ~* " + "%s", KeyParams(path[1..]) + [JStr(ReEscape(term))]))
  }

  /** The regular expression a pattern term is matched with. */
  function TermRegex(path: seq<string>, term: string, multiple: bool): string
    requires |path| >= 1
  {
    if multiple then ArrayMemberRegex(path[|path| - 1], term) else ReEscape(term)
  }

  /** The keys the text of a pattern match is taken at. */
  function TermKeys(path: seq<string>, multiple: bool): seq<string>
    requires |path| >= 1
  {
    if multiple && |path| >= 2 then path[1..|path| - 1] else path[1..]
  }

  lemma TextSlotBinds(traversal: string, xs: seq<string>, a: string)
    requires Interpolate(traversal, xs).Some?
    ensures Interpolate("(" + traversal + ")" + "::text ~* " + "%s", xs + [a]) ==
            Some("(" + Interpolate(traversal, xs).value + ")" + "::text ~* " + a)
  {
    var v := Interpolate(traversal, xs).value;
    assert Interpolate("(" + traversal + ")", xs) == Some("(" + v + ")") by {
      assert '%' !in "(" && '%' !in ")";
      InterpolateWrap("(", traversal, ")", xs);
    }
    assert '%' !in "::text ~* ";
    InterpolateSuffixSlot("(" + traversal + ")", "::text ~* ", xs, a);
  }

  /** The SQL a pattern term stands for once its parameters are bound: the
      text at the path matches the term's regular expression, and that
      expression matches the term itself literally, with no character of
      the term read as a regular-expression operator; the multiple form
      looks for the last key followed by a string value containing the
      term. Only a one-element path in the multiple form fails. */
  lemma TextSimilarityRenders(path: seq<string>, term: string, multiple: bool, lit: Json -> string)
    requires |path| >= 1 && '%' !in path[0]
    ensures TextSimilarityFilter(path, term, multiple).Err? <==> multiple && |path| == 1
    ensures TextSimilarityFilter(path, term, multiple).Ok? ==>
      Render(TextSimilarityFilter(path, term, multiple).value, lit) ==
        Some("(" + Walk(path[0], Literals(KeyParams(TermKeys(path, multiple)), lit), "->>") + ")" + "::text ~* "
             + lit(JStr(TermRegex(path, term, multiple))))
    ensures LiteralText(ReEscape(term)) == Some(term)
    ensures multiple && |path| >= 2 ==>
      var key := path[|path| - 1];
      && TermRegex(path, term, multiple)[..|ReEscape(key)|] == ReEscape(key)
      && LiteralText(ReEscape(key)) == Some(key)
  {
    ReEscapeIsLiteral(term);
    if multiple {
      ReEscapeIsLiteral(path[|path| - 1]);
    }
    if !multiple || |path| >= 2 {
      var tp := if multiple then path[..|path| - 1] else path;
      assert tp[0] == path[0] && tp[1..] == TermKeys(path, multiple);
      var a := JStr(TermRegex(path, term, multiple));
      assert TextSimilarityFilter(path, term, multiple).value ==
             Fragment("(" + ExtractValueAtPath(tp) + ")" + "::text ~* " + "%s", KeyParams(tp[1..]) + [a]);
      TermRender(tp, a, lit);
    }
  }

  /** The pattern-match template over the path `tp` binds to the walk
      along the path followed by the pattern. */
  lemma TermRender(tp: seq<string>, a: Json, lit: Json -> string)
    requires |tp| >= 1 && '%' !in tp[0]
    ensures Render(Fragment("(" + ExtractValueAtPath(tp) + ")" + "::text ~* " + "%s", KeyParams(tp[1..]) + [a]), lit) ==
            Some("(" + Walk(tp[0], Literals(KeyParams(tp[1..]), lit), "->>") + ")" + "::text ~* " + lit(a))
  {
    var branch := KeyParams(tp[1..]);
    var xs := Literals(branch, lit);
    TraversalBinds(tp, "->>", xs);
    TextSlotBinds(ExtractValueAtPath(tp), xs, lit(a));
    LiteralsAppend(branch, [a], lit);
    assert Literals([a], lit) == [lit(a)];
  }

  // ---------------------------------------------------------------------
  // Rule recognition and the tree walk

  /** The registered generators, the keys of `sql_generators`. */
  datatype RuleType = IntRange | Containment | ContainmentMultiple

  function RuleTypeNamed(tag: string): Option<RuleType>
  {
    if tag == "intrange" then Some(IntRange)
    else if tag == "containment" then Some(Containment)
    else if tag == "containment_multiple" then Some(ContainmentMultiple)
    else None
  }

  /** The generator an object's `_rule_type` names, if it names one. */
  function RuleTypeOf(obj: seq<Member>): Option<RuleType>
  {
    match Get(obj, "_rule_type")
    case Some(JStr(tag)) => RuleTypeNamed(tag)
    case _ => None
  }

  /** `is_rule(obj)`: the object has a `_rule_type` naming a registered
      generator. Looking a list or an object up among the generators
      raises TypeError; any other value simply is not registered. */
  function IsRule(obj: seq<Member>): (r: Result<bool, Error>)
    ensures r == Ok(true) <==> RuleTypeOf(obj).Some?
    ensures r.Err? <==> Get(obj, "_rule_type").Some? && (Get(obj, "_rule_type").value.JArr? || Get(obj, "_rule_type").value.JObj?)
  {
    if !HasKey(obj, "_rule_type") then Ok(false)
    else
      match Get(obj, "_rule_type").value
      case JArr(_) => Err(UnhashableRuleType)
      case JObj(_) => Err(UnhashableRuleType)
      case JStr(tag) => Ok(tag == "intrange" || tag == "containment" || tag == "containment_multiple")
      case _ => Ok(false)
  }

  /** A rule found in the tree: the column followed by the keys leading to
      it, and the rule object itself. */
  datatype Located = Located(path: seq<string>, rule: seq<Member>)

  /** `get_rules(obj, current_path)`: a non-object holds no rule, a rule
      object is one rule at the current path, and any other object is
      searched member by member in order; the first TypeError wins. */
  function GetRules(field: string, obj: Json, current: seq<string>): Result<seq<Located>, Error>
  {
    match obj
    case JObj(ms) =>
      (match IsRule(ms)
       case Err(e) => Err(e)
       case Ok(isRule) =>
         if isRule then Ok([Located([field] + current, ms)])
         else GetRulesMembers(field, ms, current))
    case _ => Ok([])
  }

  function GetRulesMembers(field: string, ms: seq<Member>, current: seq<string>): Result<seq<Located>, Error>
  {
    if |ms| == 0 then Ok([])
    else
      match GetRules(field, ms[0].value, current + [ms[0].key])
      case Err(e) => Err(e)
      case Ok(first) =>
        match GetRulesMembers(field, ms[1..], current)
        case Err(e) => Err(e)
        case Ok(rest) => Ok(first + rest)
  }

  /** `j` holds `target` under the keys `ks`, and no object passed on the
      way there is itself a rule: the walk of `get_rules` goes down this
      far. */
  predicate OpenReaches(j: Json, ks: seq<string>, target: Json)
    decreases |ks|
  {
    if |ks| == 0 then j == target
    else j.JObj? && RuleTypeOf(j.members).None? && MembersReach(j.members, ks, target)
  }

  /** Some member of `ms` under the key `ks[0]` leads on to `target`. */
  predicate MembersReach(ms: seq<Member>, ks: seq<string>, target: Json)
    decreases |ks|, 0
  {
    |ks| > 0 && exists i :: 0 <= i < |ms| && ms[i].key == ks[0] && OpenReaches(ms[i].value, ks[1..], target)
  }

  /** What every located rule satisfies: its path is the column, the keys
      walked so far and then the keys leading to it, the walk reaches it,
      and it is a rule object of a registered type. */
  predicate SoundAt(field: string, obj: Json, current: seq<string>, loc: Located)
  {
    && |loc.path| >= |current| + 1
    && loc.path[..|current| + 1] == [field] + current
    && OpenReaches(obj, loc.path[|current| + 1..], JObj(loc.rule))
    && RuleTypeOf(loc.rule).Some?
  }

  /** Every rule `get_rules` returns sits, in the tree, at the keys of its
      path, below objects that are not rules, and has a registered rule
      type. */
  lemma {:induction false} GetRulesSound(field: string, obj: Json, current: seq<string>)
    ensures GetRules(field, obj, current).Ok? ==>
      forall loc :: loc in GetRules(field, obj, current).value ==> SoundAt(field, obj, current, loc)
    decreases obj, 1
  {
    if obj.JObj? && GetRules(field, obj, current).Ok? {
      var ms := obj.members;
      if IsRule(ms) == Ok(true) {
        forall loc | loc in GetRules(field, obj, current).value
          ensures SoundAt(field, obj, current, loc)
        {
          assert loc == Located([field] + current, ms);
          assert loc.path[|current| + 1..] == [];
        }
      } else {
        GetRulesMembersSound(field, ms, current);
      }
    }
  }

  lemma {:induction false} GetRulesMembersSound(field: string, ms: seq<Member>, current: seq<string>)
    ensures GetRulesMembers(field, ms, current).Ok? ==>
      forall loc :: loc in GetRulesMembers(field, ms, current).value ==>
        && |loc.path| > |current| + 1
        && loc.path[..|current| + 1] == [field] + current
        && MembersReach(ms, loc.path[|current| + 1..], JObj(loc.rule))
        && RuleTypeOf(loc.rule).Some?
    decreases ms, 0
  {
    if |ms| > 0 && GetRulesMembers(field, ms, current).Ok? {
      var k := ms[0].key;
      GetRulesSound(field, ms[0].value, current + [k]);
      GetRulesMembersSound(field, ms[1..], current);
      var first := GetRules(field, ms[0].value, current + [k]).value;
      var rest := GetRulesMembers(field, ms[1..], current).value;
      var n := |current| + 1;
      forall loc | loc in GetRulesMembers(field, ms, current).value
        ensures && |loc.path| > n && loc.path[..n] == [field] + current
                && MembersReach(ms, loc.path[n..], JObj(loc.rule)) && RuleTypeOf(loc.rule).Some?
      {
        if loc in first {
          assert SoundAt(field, ms[0].value, current + [k], loc);
          assert loc.path[..n] == ([field] + current + [k])[..n] == [field] + current;
          assert loc.path[n] == k && loc.path[n..][1..] == loc.path[n + 1..];
        } else {
          assert loc in rest;
          var i :| 0 <= i < |ms[1..]| && ms[1..][i].key == loc.path[n..][0] &&
                   OpenReaches(ms[1..][i].value, loc.path[n..][1..], JObj(loc.rule));
          assert ms[i + 1] == ms[1..][i];
        }
      }
    }
  }

  /** Every rule object the walk reaches is returned, at its path. */
  lemma {:induction false} GetRulesComplete(field: string, obj: Json, current: seq<string>, ks: seq<string>, r: seq<Member>)
    requires GetRules(field, obj, current).Ok?
    requires OpenReaches(obj, ks, JObj(r)) && RuleTypeOf(r).Some?
    ensures Located([field] + current + ks, r) in GetRules(field, obj, current).value
    decreases obj, 1
  {
    if |ks| == 0 {
      assert IsRule(r) == Ok(true);
      assert [field] + current + ks == [field] + current;
      assert GetRules(field, obj, current).value == [Located([field] + current, r)];
    } else {
      var ms := obj.members;
      var i :| 0 <= i < |ms| && ms[i].key == ks[0] && OpenReaches(ms[i].value, ks[1..], JObj(r));
      assert IsRule(ms) == Ok(false);
      GetRulesMembersComplete(field, ms, current, i, ks[1..], r);
      assert ks == [ms[i].key] + ks[1..];
      assert [field] + (current + [ms[i].key]) + ks[1..] == [field] + current + ks;
      assert GetRules(field, obj, current) == GetRulesMembers(field, ms, current);
    }
  }

  lemma {:induction false} GetRulesMembersComplete(field: string, ms: seq<Member>, current: seq<string>, i: nat, ks: seq<string>, r: seq<Member>)
    requires GetRulesMembers(field, ms, current).Ok?
    requires i < |ms| && OpenReaches(ms[i].value, ks, JObj(r)) && RuleTypeOf(r).Some?
    ensures Located([field] + (current + [ms[i].key]) + ks, r) in GetRulesMembers(field, ms, current).value
    decreases ms, 0
  {
    var first := GetRules(field, ms[0].value, current + [ms[0].key]).value;
    var rest := GetRulesMembers(field, ms[1..], current).value;
    assert GetRulesMembers(field, ms, current).value == first + rest;
    if i == 0 {
      GetRulesComplete(field, ms[0].value, current + [ms[0].key], ks, r);
    } else {
      assert ms[1..][i - 1] == ms[i];
      GetRulesMembersComplete(field, ms[1..], current, i - 1, ks, r);
    }
  }

  /** Soundness and completeness together: a located rule is in the
      result exactly when its path leads, through objects that are not
      rules, to a rule object of a registered type. */
  lemma GetRulesExactly(field: string, obj: Json, current: seq<string>)
    requires GetRules(field, obj, current).Ok?
    ensures forall loc :: loc in GetRules(field, obj, current).value <==> SoundAt(field, obj, current, loc)
  {
    GetRulesSound(field, obj, current);
    forall loc | SoundAt(field, obj, current, loc)
      ensures loc in GetRules(field, obj, current).value
    {
      var ks := loc.path[|current| + 1..];
      GetRulesComplete(field, obj, current, ks, loc.rule);
      assert loc.path == [field] + current + ks;
    }
  }

  /** The rules found in an object that is not a rule: those under each
      member, member after member in order. */
  function RulesUnder(field: string, ms: seq<Member>, current: seq<string>): seq<seq<Located>>
  {
    seq(|ms|, i requires 0 <= i < |ms| =>
      match GetRules(field, ms[i].value, current + [ms[i].key])
      case Ok(found) => found
      case Err(_) => [])
  }

  /** The members are searched in order: the result lists the rules under
      the first member, then those under the second, and so on. */
  lemma {:induction false} GetRulesMembersInOrder(field: string, ms: seq<Member>, current: seq<string>)
    requires GetRulesMembers(field, ms, current).Ok?
    ensures GetRulesMembers(field, ms, current).value == Flatten(RulesUnder(field, ms, current))
    decreases |ms|
  {
    if |ms| > 0 {
      GetRulesMembersInOrder(field, ms[1..], current);
      var under := RulesUnder(field, ms, current);
      assert under[1..] == RulesUnder(field, ms[1..], current);
    }
  }

  // ---------------------------------------------------------------------
  // Grouping pattern fragments by term

  /** A text-similarity fragment and the pattern term it was made for. */
  datatype Tagged = Tagged(term: string, frag: Fragment)

  /** One entry of the `patterns` dict: a term and its fragments, one per
      rule whose pattern holds the term. */
  datatype Group = Group(term: string, frags: seq<Fragment>)

  /** `patterns.setdefault(term, []).append(f)` on an insertion-ordered
      dict. */
  function SetDefaultAppend(gs: seq<Group>, term: string, f: Fragment): seq<Group>
  {
    if |gs| == 0 then [Group(term, [f])]
    else if gs[0].term == term then [Group(term, gs[0].frags + [f])] + gs[1..]
    else [gs[0]] + SetDefaultAppend(gs[1..], term, f)
  }

  /** The `patterns` dict after the tagged fragments were added in order. */
  function GroupByTerm(es: seq<Tagged>): seq<Group>
  {
    if |es| == 0 then []
    else SetDefaultAppend(GroupByTerm(es[..|es| - 1]), es[|es| - 1].term, es[|es| - 1].frag)
  }

  /** Grouping one more tagged fragment appends it to its term's group. */
  lemma GroupByTermStep(entries: seq<Tagged>, tagged: seq<Tagged>, e: Tagged)
    ensures GroupByTerm(entries + (tagged + [e])) == SetDefaultAppend(GroupByTerm(entries + tagged), e.term, e.frag)
  {
    var all := entries + tagged + [e];
    assert all[..|all| - 1] == entries + tagged;
    assert entries + (tagged + [e]) == all;
  }

  /** `patterns.get(term, [])`. */
  function FragsFor(gs: seq<Group>, term: string): seq<Fragment>
  {
    if |gs| == 0 then []
    else if gs[0].term == term then gs[0].frags
    else FragsFor(gs[1..], term)
  }

  /** The fragments tagged with `term`, in the order they were made. */
  function Select(es: seq<Tagged>, term: string): seq<Fragment>
  {
    if |es| == 0 then []
    else Select(es[..|es| - 1], term) + (if es[|es| - 1].term == term then [es[|es| - 1].frag] else [])
  }

  predicate DistinctTerms(gs: seq<Group>)
  {
    forall i, j :: 0 <= i < j < |gs| ==> gs[i].term != gs[j].term
  }

  predicate NonEmptyGroups(gs: seq<Group>)
  {
    forall i :: 0 <= i < |gs| ==> gs[i].frags != []
  }

  /** `setdefault(...).append` adds the fragment to its term's list and to
      no other. */
  lemma {:induction false} SetDefaultAppendFrags(gs: seq<Group>, term: string, f: Fragment, t: string)
    ensures FragsFor(SetDefaultAppend(gs, term, f), t) == FragsFor(gs, t) + (if t == term then [f] else [])
  {
    var r := SetDefaultAppend(gs, term, f);
    if |gs| == 0 {
      assert r[1..] == [];
    } else if gs[0].term == term {
      assert r[1..] == gs[1..];
    } else {
      SetDefaultAppendFrags(gs[1..], term, f, t);
      assert r[1..] == SetDefaultAppend(gs[1..], term, f);
    }
  }

  lemma DistinctTail(gs: seq<Group>)
    requires |gs| > 0 && DistinctTerms(gs)
    ensures DistinctTerms(gs[1..])
  {
    forall i, j | 0 <= i < j < |gs[1..]| ensures gs[1..][i].term != gs[1..][j].term {
      assert gs[1..][i] == gs[i + 1] && gs[1..][j] == gs[j + 1];
    }
  }

  /** It adds no term but its own and drops none. */
  lemma {:induction false} SetDefaultAppendTerms(gs: seq<Group>, term: string, f: Fragment)
    ensures forall g :: g in SetDefaultAppend(gs, term, f) ==> g.term == term || g in gs
    ensures forall g :: g in gs ==> exists h :: h in SetDefaultAppend(gs, term, f) && h.term == g.term
  {
    var r := SetDefaultAppend(gs, term, f);
    if |gs| == 0 {
    } else if gs[0].term == term {
      assert r[1..] == gs[1..];
      forall g | g in gs ensures exists h :: h in r && h.term == g.term {
        var i :| 0 <= i < |gs| && gs[i] == g;
        if i == 0 { assert r[0] in r; } else { assert r[i] == gs[i]; }
      }
    } else {
      SetDefaultAppendTerms(gs[1..], term, f);
      var r1 := SetDefaultAppend(gs[1..], term, f);
      assert r == [gs[0]] + r1;
      forall g | g in r ensures g.term == term || g in gs {
        if g != gs[0] {
          assert g in r1;
        }
      }
      forall g | g in gs ensures exists h :: h in r && h.term == g.term {
        if g != gs[0] {
          assert g in gs[1..];
          var h :| h in r1 && h.term == g.term;
          assert h in r;
        } else {
          assert r[0] in r;
        }
      }
    }
  }

  /** The dict's keys in insertion order. */
  function Terms(gs: seq<Group>): (r: seq<string>)
    ensures |r| == |gs|
    ensures forall i :: 0 <= i < |gs| ==> r[i] == gs[i].term
  {
    if |gs| == 0 then [] else [gs[0].term] + Terms(gs[1..])
  }

  /** A term already present keeps its place; a new term goes at the end. */
  lemma {:induction false} SetDefaultAppendKeys(gs: seq<Group>, term: string, f: Fragment)
    ensures Terms(SetDefaultAppend(gs, term, f)) == if term in Terms(gs) then Terms(gs) else Terms(gs) + [term]
  {
    if |gs| > 0 && gs[0].term != term {
      SetDefaultAppendKeys(gs[1..], term, f);
      assert Terms(gs) == [gs[0].term] + Terms(gs[1..]);
      assert term in Terms(gs) <==> term in Terms(gs[1..]);
    } else if |gs| > 0 {
      assert SetDefaultAppend(gs, term, f)[1..] == gs[1..];
    }
  }

  /** It keeps the terms distinct. */
  lemma SetDefaultAppendDistinct(gs: seq<Group>, term: string, f: Fragment)
    requires DistinctTerms(gs)
    ensures DistinctTerms(SetDefaultAppend(gs, term, f))
  {
    var r := SetDefaultAppend(gs, term, f);
    SetDefaultAppendKeys(gs, term, f);
    var ts, rs := Terms(gs), Terms(r);
    forall i, j | 0 <= i < j < |r| ensures r[i].term != r[j].term {
      assert r[i].term == rs[i] && r[j].term == rs[j];
      if j < |gs| {
        assert rs[i] == ts[i] && rs[j] == ts[j];
      } else {
        assert term !in ts && rs[j] == term && rs[i] == ts[i];
      }
    }
  }

  /** It leaves no list empty. */
  lemma {:induction false} SetDefaultAppendNonEmpty(gs: seq<Group>, term: string, f: Fragment)
    requires NonEmptyGroups(gs)
    ensures NonEmptyGroups(SetDefaultAppend(gs, term, f))
  {
    var r := SetDefaultAppend(gs, term, f);
    if |gs| == 0 {
    } else if gs[0].term == term {
      forall i | 0 <= i < |r| ensures r[i].frags != [] {
        if i > 0 { assert r[i] == gs[i]; }
      }
    } else {
      assert NonEmptyGroups(gs[1..]) by {
        forall i | 0 <= i < |gs[1..]| ensures gs[1..][i].frags != [] { assert gs[1..][i] == gs[i + 1]; }
      }
      SetDefaultAppendNonEmpty(gs[1..], term, f);
      var r1 := SetDefaultAppend(gs[1..], term, f);
      assert r == [gs[0]] + r1;
      forall i | 0 <= i < |r| ensures r[i].frags != [] {
        if i > 0 { assert r[i] == r1[i - 1]; }
      }
    }
  }

  /** The `patterns` dict holds each term once, with exactly the fragments
      made for it in the order they were made, and no empty list. */
  lemma {:induction false} GroupByTermSpec(es: seq<Tagged>)
    ensures DistinctTerms(GroupByTerm(es))
    ensures NonEmptyGroups(GroupByTerm(es))
    ensures forall t :: FragsFor(GroupByTerm(es), t) == Select(es, t)
    ensures forall g :: g in GroupByTerm(es) ==> exists e :: e in es && e.term == g.term
  {
    if |es| > 0 {
      var prefix, last := es[..|es| - 1], es[|es| - 1];
      GroupByTermSpec(prefix);
      SetDefaultAppendTerms(GroupByTerm(prefix), last.term, last.frag);
      SetDefaultAppendDistinct(GroupByTerm(prefix), last.term, last.frag);
      SetDefaultAppendNonEmpty(GroupByTerm(prefix), last.term, last.frag);
      forall t ensures FragsFor(GroupByTerm(es), t) == Select(es, t) {
        SetDefaultAppendFrags(GroupByTerm(prefix), last.term, last.frag, t);
      }
      forall g | g in GroupByTerm(es) ensures exists e :: e in es && e.term == g.term {
        if g.term == last.term {
          assert last in es;
        } else {
          assert g in GroupByTerm(prefix);
          var e :| e in prefix && e.term == g.term;
          assert e in es;
        }
      }
    }
  }

  /** With distinct terms, a group's list is the one `get` finds. */
  lemma {:induction false} FragsForDistinct(gs: seq<Group>, i: nat)
    requires DistinctTerms(gs) && i < |gs|
    ensures FragsFor(gs, gs[i].term) == gs[i].frags
  {
    if i > 0 {
      DistinctTail(gs);
      FragsForDistinct(gs[1..], i - 1);
    }
  }

  // ---------------------------------------------------------------------
  // Compiling the rules

  /** A rule as `get_rules` finds it: a path holding at least the column,
      and a registered rule type. */
  predicate Locatable(loc: Located)
  {
    |loc.path| >= 1 && RuleTypeOf(loc.rule).Some?
  }

  /** `self.sql_generators[rule['_rule_type']](path, rule)`. */
  function Generate(path: seq<string>, rule: seq<Member>): Result<Option<Fragment>, Error>
    requires |path| >= 1 && RuleTypeOf(rule).Some?
  {
    match RuleTypeOf(rule).value
    case IntRange => Ok(IntrangeFilter(path, rule))
    case Containment => ContainmentFragment(path, rule, false)
    case ContainmentMultiple => ContainmentFragment(path, rule, true)
  }

  /** `shlex.split(rule['pattern'])` when the rule has a pattern, and no
      term otherwise. */
  function PatternTerms(rule: seq<Member>): Result<seq<string>, Error>
  {
    match Get(rule, "pattern")
    case None => Ok([])
    case Some(JStr(p)) =>
      (match ShlexSplit(p)
       case Ok(terms) => Ok(terms)
       case Err(e) => Err(PatternSyntax(e)))
    case Some(_) => Err(PatternNotString)
  }

  /** One text-similarity fragment per term, tagged with its term; the
      first failure stops the loop. */
  function TagTerms(path: seq<string>, terms: seq<string>, multiple: bool): Result<seq<Tagged>, Error>
    requires |path| >= 1
  {
    if |terms| == 0 then Ok([])
    else
      match TagTerms(path, terms[..|terms| - 1], multiple)
      case Err(e) => Err(e)
      case Ok(prev) =>
        match TextSimilarityFilter(path, terms[|terms| - 1], multiple)
        case Err(e) => Err(e)
        case Ok(f) => Ok(prev + [Tagged(terms[|terms| - 1], f)])
  }

  /** What `sql()` has gathered so far: `rule_specs`, and the tagged
      pattern fragments in the order they went into `patterns`. */
  datatype Compiled = Compiled(leafs: seq<Fragment>, entries: seq<Tagged>)

  /** One turn of the loop of `sql()`: the rule's own fragment, if any, then
      its pattern terms. */
  function CompileRule(acc: Compiled, loc: Located): Result<Compiled, Error>
    requires Locatable(loc)
  {
    match Generate(loc.path, loc.rule)
    case Err(e) => Err(e)
    case Ok(leaf) =>
      var leafs := if leaf.Some? then acc.leafs + [leaf.value] else acc.leafs;
      match PatternTerms(loc.rule)
      case Err(e) => Err(e)
      case Ok(terms) =>
        match TagTerms(loc.path, terms, RuleTypeOf(loc.rule) == Some(ContainmentMultiple))
        case Err(e) => Err(e)
        case Ok(tagged) => Ok(Compiled(leafs, acc.entries + tagged))
  }

  predicate AllLocatable(rules: seq<Located>)
  {
    forall i :: 0 <= i < |rules| ==> Locatable(rules[i])
  }

  /** The loop of `sql()` over the rules; the first exception wins. */
  function CompileRules(rules: seq<Located>): Result<Compiled, Error>
    requires AllLocatable(rules)
  {
    if |rules| == 0 then Ok(Compiled([], []))
    else
      match CompileRules(rules[..|rules| - 1])
      case Err(e) => Err(e)
      case Ok(acc) => CompileRule(acc, rules[|rules| - 1])
  }

  /** The fragment a rule's generator gives, as a list: empty when the
      generator returns None or fails. */
  function LeafOf(loc: Located): seq<Fragment>
    requires Locatable(loc)
  {
    match Generate(loc.path, loc.rule)
    case Ok(Some(f)) => [f]
    case _ => []
  }

  /** The tagged fragments of a rule's pattern, empty when it has none or
      they fail. */
  function EntriesOf(loc: Located): seq<Tagged>
    requires Locatable(loc)
  {
    match PatternTerms(loc.rule)
    case Err(_) => []
    case Ok(terms) =>
      match TagTerms(loc.path, terms, RuleTypeOf(loc.rule) == Some(ContainmentMultiple))
      case Ok(tagged) => tagged
      case Err(_) => []
  }

  /** A rule whose generator, pattern and pattern fragments all succeed. */
  predicate RuleCompiles(loc: Located)
    requires Locatable(loc)
  {
    && Generate(loc.path, loc.rule).Ok?
    && PatternTerms(loc.rule).Ok?
    && TagTerms(loc.path, PatternTerms(loc.rule).value, RuleTypeOf(loc.rule) == Some(ContainmentMultiple)).Ok?
  }

  /** The non-None generator results, rule by rule from the first. */
  function GeneratedLeafs(rules: seq<Located>): seq<Fragment>
    requires AllLocatable(rules)
  {
    if |rules| == 0 then [] else LeafOf(rules[0]) + GeneratedLeafs(rules[1..])
  }

  /** The tagged pattern fragments, rule by rule from the first. */
  function PatternEntries(rules: seq<Located>): seq<Tagged>
    requires AllLocatable(rules)
  {
    if |rules| == 0 then [] else EntriesOf(rules[0]) + PatternEntries(rules[1..])
  }

  lemma DropLast<T>(s: seq<T>)
    requires |s| > 0
    ensures s == s[..|s| - 1] + [s[|s| - 1]]
  {
  }

  lemma AppendTail<T>(s: seq<T>, x: T)
    requires |s| > 0
    ensures (s + [x])[0] == s[0] && (s + [x])[1..] == s[1..] + [x]
  {
  }

  lemma {:induction false} GeneratedAppend(rules: seq<Located>, loc: Located)
    requires AllLocatable(rules) && Locatable(loc)
    ensures AllLocatable(rules + [loc])
    ensures GeneratedLeafs(rules + [loc]) == GeneratedLeafs(rules) + LeafOf(loc)
  {
    if |rules| > 0 {
      GeneratedAppend(rules[1..], loc);
      AppendTail(rules, loc);
    }
  }

  lemma {:induction false} EntriesAppend(rules: seq<Located>, loc: Located)
    requires AllLocatable(rules) && Locatable(loc)
    ensures AllLocatable(rules + [loc])
    ensures PatternEntries(rules + [loc]) == PatternEntries(rules) + EntriesOf(loc)
  {
    if |rules| > 0 {
      EntriesAppend(rules[1..], loc);
      AppendTail(rules, loc);
    }
  }


  /** One turn of the loop succeeds exactly when the rule compiles, and
      then adds the rule's fragment and pattern fragments. */
  lemma CompileRuleStep(acc: Compiled, loc: Located)
    requires Locatable(loc)
    ensures CompileRule(acc, loc).Ok? <==> RuleCompiles(loc)
    ensures CompileRule(acc, loc).Ok? ==>
      CompileRule(acc, loc) == Ok(Compiled(acc.leafs + LeafOf(loc), acc.entries + EntriesOf(loc)))
  {
    if RuleCompiles(loc) && Generate(loc.path, loc.rule).value.None? {
      assert acc.leafs + LeafOf(loc) == acc.leafs;
    }
  }

  predicate AllCompile(rules: seq<Located>)
    requires AllLocatable(rules)
  {
    forall i :: 0 <= i < |rules| ==> RuleCompiles(rules[i])
  }

  lemma AllCompileLast(rules: seq<Located>)
    requires AllLocatable(rules) && |rules| > 0
    ensures AllCompile(rules) <==> AllCompile(rules[..|rules| - 1]) && RuleCompiles(rules[|rules| - 1])
  {
    var prefix := rules[..|rules| - 1];
    assert forall i :: 0 <= i < |prefix| ==> prefix[i] == rules[i];
  }

  /** The loop of `sql()` succeeds exactly when every rule compiles. */
  lemma {:induction false} CompileRulesOk(rules: seq<Located>)
    requires AllLocatable(rules)
    ensures CompileRules(rules).Ok? <==> AllCompile(rules)
  {
    if |rules| > 0 {
      var prefix, loc := rules[..|rules| - 1], rules[|rules| - 1];
      CompileRulesOk(prefix);
      AllCompileLast(rules);
      if CompileRules(prefix).Ok? {
        CompileRuleStep(CompileRules(prefix).value, loc);
      }
    }
  }

  /** When the loop succeeds, `rule_specs` holds the non-None generator
      results and `patterns` receives the pattern fragments, both in the
      order of the rules. */
  lemma {:induction false} CompileRulesInOrder(rules: seq<Located>)
    requires AllLocatable(rules) && CompileRules(rules).Ok?
    ensures CompileRules(rules) == Ok(Compiled(GeneratedLeafs(rules), PatternEntries(rules)))
  {
    if |rules| > 0 {
      var prefix, loc := rules[..|rules| - 1], rules[|rules| - 1];
      assert AllLocatable(prefix);
      assert CompileRules(prefix).Ok?;
      var acc := CompileRules(prefix).value;
      assert CompileRules(rules) == CompileRule(acc, loc);
      CompileRulesInOrder(prefix);
      CompileRuleStep(acc, loc);
      GeneratedAppend(prefix, loc);
      EntriesAppend(prefix, loc);
      DropLast(rules);
    }
  }

  /** Every generator wraps its fragment in parentheses. */
  lemma GenerateParenthesized(path: seq<string>, rule: seq<Member>)
    requires |path| >= 1 && RuleTypeOf(rule).Some?
    ensures Generate(path, rule).Ok? && Generate(path, rule).value.Some? ==>
      Parenthesized([Generate(path, rule).value.value])
  {
  }

  lemma {:induction false} CompileRulesParenthesized(rules: seq<Located>)
    requires AllLocatable(rules) && CompileRules(rules).Ok?
    ensures Parenthesized(CompileRules(rules).value.leafs)
  {
    if |rules| > 0 {
      var prefix, loc := rules[..|rules| - 1], rules[|rules| - 1];
      CompileRulesParenthesized(prefix);
      CompileRuleStep(CompileRules(prefix).value, loc);
      GenerateParenthesized(loc.path, loc.rule);
    }
  }

  // ---------------------------------------------------------------------
  // Assembly

  function Sqls(fs: seq<Fragment>): (r: seq<string>)
    ensures |r| == |fs|
    ensures forall i :: 0 <= i < |fs| ==> r[i] == fs[i].sql
  {
    if |fs| == 0 then [] else Sqls(fs[..|fs| - 1]) + [fs[|fs| - 1].sql]
  }

  function ParamLists(fs: seq<Fragment>): (r: seq<seq<Json>>)
    ensures |r| == |fs|
    ensures forall i :: 0 <= i < |fs| ==> r[i] == fs[i].params
  {
    if |fs| == 0 then [] else ParamLists(fs[..|fs| - 1]) + [fs[|fs| - 1].params]
  }

  /** `pattern_strings`: per term, its fragments joined by `OR`. */
  function PatternStrings(gs: seq<Group>): (r: seq<string>)
    ensures |r| == |gs|
    ensures forall i :: 0 <= i < |gs| ==> r[i] == Join(" OR ", Sqls(gs[i].frags))
  {
    if |gs| == 0 then [] else PatternStrings(gs[..|gs| - 1]) + [Join(" OR ", Sqls(gs[|gs| - 1].frags))]
  }

  /** `pattern_specs`: the fragments of every term, term by term. */
  function PatternSpecs(gs: seq<Group>): seq<Fragment>
  {
    if |gs| == 0 then [] else PatternSpecs(gs[..|gs| - 1]) + gs[|gs| - 1].frags
  }

  /** `pattern_string`: each term's alternatives in parentheses, all of
      them required. */
  function PatternString(patternStrings: seq<string>): string
  {
    if |patternStrings| > 0 then "(" + Join(") AND (", patternStrings) + ")" else ""
  }

  /** `filter_string`: the rule fragments and the pattern part, both
      required, in one pair of parentheses. */
  function FilterString(ruleString: string, patternString: string): string
  {
    if ruleString != "" && patternString != "" then "(" + Join(" AND (", [ruleString, patternString]) + ")" + ")"
    else if ruleString != "" || patternString != "" then "(" + ruleString + patternString + ")"
    else ""
  }

  /** The outcome of `sql()` from the rule fragments and the `patterns`
      dict: the filter string and the flattened parameters, rule fragments
      first, then the pattern fragments term by term. */
  function Assemble(leafs: seq<Fragment>, groups: seq<Group>): Fragment
  {
    var ruleString := Join(" AND ", Sqls(leafs));
    var patternString := PatternString(PatternStrings(groups));
    Fragment(FilterString(ruleString, patternString), Flatten(ParamLists(leafs + PatternSpecs(groups))))
  }

  /** `FilterTree(tree, field).sql()` from the rules `get_rules` found. */
  function Compile(rules: seq<Located>): Result<Fragment, Error>
    requires AllLocatable(rules)
  {
    match CompileRules(rules)
    case Err(e) => Err(e)
    case Ok(c) => Ok(Assemble(c.leafs, GroupByTerm(c.entries)))
  }

  // ---------------------------------------------------------------------
  // Binding commutes with assembly

  predicate AllRender(fs: seq<Fragment>, lit: Json -> string)
  {
    forall i :: 0 <= i < |fs| ==> Render(fs[i], lit).Some?
  }

  /** Every fragment bound to its own parameters. */
  function RenderAll(fs: seq<Fragment>, lit: Json -> string): (r: seq<string>)
    requires AllRender(fs, lit)
    ensures |r| == |fs|
    ensures forall i :: 0 <= i < |fs| ==> r[i] == Render(fs[i], lit).value
  {
    seq(|fs|, i requires 0 <= i < |fs| => Render(fs[i], lit).value)
  }

  /** Each parameter list as literals. */
  function LiteralLists(pss: seq<seq<Json>>, lit: Json -> string): (r: seq<seq<string>>)
    ensures |r| == |pss|
    ensures forall i :: 0 <= i < |pss| ==> r[i] == Literals(pss[i], lit)
  {
    seq(|pss|, i requires 0 <= i < |pss| => Literals(pss[i], lit))
  }

  lemma {:induction false} LiteralsFlatten(pss: seq<seq<Json>>, lit: Json -> string)
    ensures Literals(Flatten(pss), lit) == Flatten(LiteralLists(pss, lit))
  {
    if |pss| > 0 {
      LiteralsFlatten(pss[1..], lit);
      LiteralsAppend(pss[0], Flatten(pss[1..]), lit);
      assert LiteralLists(pss, lit)[1..] == LiteralLists(pss[1..], lit);
    }
  }

  /** Fragments joined by a `%`-free separator, with their parameter
      lists concatenated, bind each fragment to its own parameters. */
  lemma JoinFragmentsRender(sep: string, fs: seq<Fragment>, lit: Json -> string)
    requires '%' !in sep && AllRender(fs, lit)
    ensures Render(Fragment(Join(sep, Sqls(fs)), Flatten(ParamLists(fs))), lit) == Some(Join(sep, RenderAll(fs, lit)))
  {
    var ts := Sqls(fs);
    var argss := LiteralLists(ParamLists(fs), lit);
    LiteralsFlatten(ParamLists(fs), lit);
    InterpolateJoin(sep, ts, argss);
    assert seq(|ts|, i requires 0 <= i < |ts| => Interpolate(ts[i], argss[i]).value) == RenderAll(fs, lit);
  }

  /** A term's alternatives as one fragment. */
  function GroupFragment(g: Group): Fragment
  {
    Fragment(Join(" OR ", Sqls(g.frags)), Flatten(ParamLists(g.frags)))
  }

  function GroupFragments(gs: seq<Group>): (r: seq<Fragment>)
    ensures |r| == |gs|
    ensures forall i :: 0 <= i < |gs| ==> r[i] == GroupFragment(gs[i])
  {
    if |gs| == 0 then [] else GroupFragments(gs[..|gs| - 1]) + [GroupFragment(gs[|gs| - 1])]
  }

  lemma {:induction false} ParamListsAppend(a: seq<Fragment>, b: seq<Fragment>)
    ensures ParamLists(a + b) == ParamLists(a) + ParamLists(b)
  {
  }

  lemma FlattenSingle<T>(x: seq<T>)
    ensures Flatten([x]) == x
  {
    assert [x][1..] == [];
    assert Flatten([x]) == x + [];
  }

  /** `pattern_specs` carries the parameters of the pattern strings in
      their order. */
  lemma {:induction false} PatternSpecsParams(gs: seq<Group>)
    ensures Flatten(ParamLists(PatternSpecs(gs))) == Flatten(ParamLists(GroupFragments(gs)))
    ensures PatternStrings(gs) == Sqls(GroupFragments(gs))
  {
    if |gs| > 0 {
      var prefix, last := gs[..|gs| - 1], gs[|gs| - 1];
      PatternSpecsParams(prefix);
      ParamListsAppend(PatternSpecs(prefix), last.frags);
      FlattenAppend(ParamLists(PatternSpecs(prefix)), ParamLists(last.frags));
      assert GroupFragments(gs) == GroupFragments(prefix) + [GroupFragment(last)];
      ParamListsAppend(GroupFragments(prefix), [GroupFragment(last)]);
      assert ParamLists([GroupFragment(last)]) == [GroupFragment(last).params];
      FlattenAppend(ParamLists(GroupFragments(prefix)), [GroupFragment(last).params]);
      FlattenSingle(GroupFragment(last).params);
    }
  }

  lemma JoinNonEmpty(sep: string, xs: seq<string>)
    requires |xs| > 0 && xs[0] != ""
    ensures Join(sep, xs) != ""
  {
    if |xs| > 1 {
      assert Join(sep, xs) == xs[0] + sep + Join(sep, xs[1..]);
    }
  }

  /** Grouping a tagged fragment always leaves some group. */
  lemma {:induction false} GroupByTermNonEmpty(es: seq<Tagged>)
    requires |es| > 0
    ensures |GroupByTerm(es)| > 0
  {
    var gs := GroupByTerm(es[..|es| - 1]);
    if |gs| > 0 && gs[0].term != es[|es| - 1].term {
      assert SetDefaultAppend(gs, es[|es| - 1].term, es[|es| - 1].frag)[0] == gs[0];
    }
  }

  /** `sql()` gives the empty filter and no parameter exactly when no rule
      produced a fragment and no pattern produced a term. */
  lemma CompileEmpty(rules: seq<Located>)
    requires AllLocatable(rules) && CompileRules(rules).Ok?
    ensures Compile(rules) == Ok(Fragment("", [])) <==> CompileRules(rules).value == Compiled([], [])
  {
    var c := CompileRules(rules).value;
    if c.leafs != [] {
      CompileRulesParenthesized(rules);
      JoinNonEmpty(" AND ", Sqls(c.leafs));
    } else if c.entries != [] {
      GroupByTermNonEmpty(c.entries);
    } else {
      assert ParamLists(c.leafs + PatternSpecs([])) == [];
    }
  }

  lemma FilterBothRender(r: string, p: string, xs: seq<string>, ys: seq<string>)
    requires Interpolate(r, xs).Some? && Interpolate(p, ys).Some?
    ensures Interpolate("(" + Join(" AND (", [r, p]) + ")" + ")", xs + ys) ==
            Some("(" + Join(" AND (", [Interpolate(r, xs).value, Interpolate(p, ys).value]) + ")" + ")")
  {
    var j := Join(" AND (", [r, p]);
    assert '%' !in " AND (" && '%' !in "(" && '%' !in ")";
    InterpolatePair(" AND (", r, p, xs, ys);
    InterpolateWrap("(", j, ")", xs + ys);
    InterpolateWrap("", "(" + j + ")", ")", xs + ys);
    assert "" + ("(" + j + ")") + ")" == "(" + j + ")" + ")";
    var j' := Interpolate(j, xs + ys).value;
    assert "" + ("(" + j' + ")") + ")" == "(" + j' + ")" + ")";
  }

  lemma FilterOneRender(r: string, p: string, xs: seq<string>, ys: seq<string>)
    requires Interpolate(r, xs).Some? && Interpolate(p, ys).Some?
    requires r == "" || p == ""
    ensures Interpolate("(" + r + p + ")", xs + ys) == Some("(" + Interpolate(r, xs).value + Interpolate(p, ys).value + ")")
  {
    assert '%' !in "(" && '%' !in ")";
    InterpolateBoth(r, p, xs, ys);
    InterpolateWrap("(", r + p, ")", xs + ys);
    Regroup("(", r, p, ")");
    Regroup("(", Interpolate(r, xs).value, Interpolate(p, ys).value, ")");
  }

  lemma Regroup(a: string, b: string, c: string, d: string)
    ensures a + b + c + d == a + (b + c) + d
  {
  }

  /** `filter_string` binds like its parts, as long as binding keeps an
      empty part empty and a non-empty part non-empty. */
  lemma FilterStringRender(r: string, p: string, xs: seq<string>, ys: seq<string>)
    requires Interpolate(r, xs).Some? && Interpolate(p, ys).Some?
    requires (r == "") == (Interpolate(r, xs).value == "")
    requires (p == "") == (Interpolate(p, ys).value == "")
    ensures Interpolate(FilterString(r, p), xs + ys) == Some(FilterString(Interpolate(r, xs).value, Interpolate(p, ys).value))
  {
    if r != "" && p != "" {
      FilterBothRender(r, p, xs, ys);
    } else if r != "" || p != "" {
      FilterOneRender(r, p, xs, ys);
    } else {
      InterpolateArity(r, xs);
      InterpolateArity(p, ys);
      assert xs + ys == [];
    }
  }

  predicate GroupsRender(gs: seq<Group>, lit: Json -> string)
  {
    forall i :: 0 <= i < |gs| ==> AllRender(gs[i].frags, lit)
  }

  /** Each term's alternatives, bound. */
  function RenderGroups(gs: seq<Group>, lit: Json -> string): (r: seq<string>)
    requires GroupsRender(gs, lit)
    ensures |r| == |gs|
    ensures forall i :: 0 <= i < |gs| ==> r[i] == Join(" OR ", RenderAll(gs[i].frags, lit))
  {
    seq(|gs|, i requires 0 <= i < |gs| => Join(" OR ", RenderAll(gs[i].frags, lit)))
  }

  /** Rule fragments that each start with an opening parenthesis. */
  predicate Parenthesized(fs: seq<Fragment>)
  {
    forall i :: 0 <= i < |fs| ==> |fs[i].sql| > 0 && fs[i].sql[0] == '('
  }

  /** Each term's alternatives bind as one fragment. */
  lemma GroupFragmentsRender(groups: seq<Group>, lit: Json -> string)
    requires GroupsRender(groups, lit)
    ensures AllRender(GroupFragments(groups), lit)
    ensures RenderAll(GroupFragments(groups), lit) == RenderGroups(groups, lit)
  {
    var gfs := GroupFragments(groups);
    forall i | 0 <= i < |groups|
      ensures Render(gfs[i], lit) == Some(Join(" OR ", RenderAll(groups[i].frags, lit)))
    {
      assert '%' !in " OR ";
      JoinFragmentsRender(" OR ", groups[i].frags, lit);
    }
  }

  lemma PatternStringEmpty(lit: Json -> string)
    ensures Interpolate(PatternString(PatternStrings([])), Literals(Flatten(ParamLists(PatternSpecs([]))), lit)) ==
            Some(PatternString(RenderGroups([], lit)))
  {
    assert PatternStrings([]) == [] && PatternSpecs([]) == [] && ParamLists([]) == [];
    assert |RenderGroups([], lit)| == 0;
  }

  /** The pattern part binds like its terms. */
  lemma PatternStringRender(groups: seq<Group>, lit: Json -> string)
    requires GroupsRender(groups, lit)
    ensures Interpolate(PatternString(PatternStrings(groups)), Literals(Flatten(ParamLists(PatternSpecs(groups))), lit)) ==
            Some(PatternString(RenderGroups(groups, lit)))
  {
    if |groups| == 0 {
      assert groups == [];
      PatternStringEmpty(lit);
    } else {
      var gfs := GroupFragments(groups);
      var xs := Literals(Flatten(ParamLists(gfs)), lit);
      var joined := Join(") AND (", Sqls(gfs));
      var rendered := Join(") AND (", RenderGroups(groups, lit));
      assert Interpolate(joined, xs) == Some(rendered) by {
        GroupFragmentsRender(groups, lit);
        assert '%' !in ") AND (";
        JoinFragmentsRender(") AND (", gfs, lit);
      }
      assert PatternStrings(groups) == Sqls(gfs) && Flatten(ParamLists(PatternSpecs(groups))) == Flatten(ParamLists(gfs)) by {
        PatternSpecsParams(groups);
      }
      assert PatternString(PatternStrings(groups)) == "(" + joined + ")";
      assert PatternString(RenderGroups(groups, lit)) == "(" + rendered + ")";
      assert '%' !in "(" && '%' !in ")";
      InterpolateWrap("(", joined, ")", xs);
    }
  }

  /** Binding the assembled filter equals assembling the bound fragments:
      the i-th placeholder of `filter_string` receives the i-th parameter
      of the flattened list, because the rule fragments and then the
      pattern fragments, term by term, appear in the same order in both. */
  lemma AssembleRenders(leafs: seq<Fragment>, groups: seq<Group>, lit: Json -> string)
    requires AllRender(leafs, lit) && Parenthesized(leafs) && GroupsRender(groups, lit)
    ensures Render(Assemble(leafs, groups), lit) ==
            Some(FilterString(Join(" AND ", RenderAll(leafs, lit)), PatternString(RenderGroups(groups, lit))))
  {
    var ruleString := Join(" AND ", Sqls(leafs));
    var patternString := PatternString(PatternStrings(groups));
    var leafParams := Flatten(ParamLists(leafs));
    var specParams := Flatten(ParamLists(PatternSpecs(groups)));
    assert '%' !in " AND ";
    JoinFragmentsRender(" AND ", leafs, lit);
    PatternStringRender(groups, lit);
    var r' := Join(" AND ", RenderAll(leafs, lit));
    if |leafs| > 0 {
      JoinNonEmpty(" AND ", Sqls(leafs));
      InterpolateHead(leafs[0].sql, Literals(leafs[0].params, lit));
      JoinNonEmpty(" AND ", RenderAll(leafs, lit));
    } else {
      assert Sqls(leafs) == [] && RenderAll(leafs, lit) == [];
    }
    ParamListsAppend(leafs, PatternSpecs(groups));
    FlattenAppend(ParamLists(leafs), ParamLists(PatternSpecs(groups)));
    LiteralsAppend(leafParams, specParams, lit);
    FilterStringRender(ruleString, patternString, Literals(leafParams, lit), Literals(specParams, lit));
  }

  // ---------------------------------------------------------------------
  // Every compiled fragment binds

  predicate EntriesRender(es: seq<Tagged>, lit: Json -> string)
  {
    forall i :: 0 <= i < |es| ==> Render(es[i].frag, lit).Some?
  }

  /** The rule's own fragment starts with a parenthesis and binds. */
  lemma GenerateReady(path: seq<string>, rule: seq<Member>, lit: Json -> string)
    requires |path| >= 1 && RuleTypeOf(rule).Some? && '%' !in path[0]
    ensures Generate(path, rule).Ok? && Generate(path, rule).value.Some? ==>
      var f := Generate(path, rule).value.value;
      |f.sql| > 0 && f.sql[0] == '(' && Render(f, lit).Some?
  {
    match RuleTypeOf(rule).value
    case IntRange => IntrangeRenders(path, rule, lit);
    case Containment => ContainmentRenders(path, rule, false, lit);
    case ContainmentMultiple => ContainmentRenders(path, rule, true, lit);
  }

  lemma {:induction false} TagTermsReady(path: seq<string>, terms: seq<string>, multiple: bool, lit: Json -> string)
    requires |path| >= 1 && '%' !in path[0]
    ensures TagTerms(path, terms, multiple).Ok? ==> EntriesRender(TagTerms(path, terms, multiple).value, lit)
  {
    if |terms| > 0 {
      TagTermsReady(path, terms[..|terms| - 1], multiple, lit);
      TextSimilarityRenders(path, terms[|terms| - 1], multiple, lit);
    }
  }

  lemma {:induction false} CompileRulesReady(rules: seq<Located>, lit: Json -> string)
    requires AllLocatable(rules)
    requires forall i :: 0 <= i < |rules| ==> '%' !in rules[i].path[0]
    ensures CompileRules(rules).Ok? ==>
      var c := CompileRules(rules).value;
      AllRender(c.leafs, lit) && Parenthesized(c.leafs) && EntriesRender(c.entries, lit)
  {
    if |rules| > 0 && CompileRules(rules).Ok? {
      var prefix, loc := rules[..|rules| - 1], rules[|rules| - 1];
      CompileRulesReady(prefix, lit);
      GenerateReady(loc.path, loc.rule, lit);
      var acc := CompileRules(prefix).value;
      var terms := PatternTerms(loc.rule).value;
      TagTermsReady(loc.path, terms, RuleTypeOf(loc.rule) == Some(ContainmentMultiple), lit);
    }
  }

  lemma {:induction false} SelectRender(es: seq<Tagged>, t: string, lit: Json -> string)
    requires EntriesRender(es, lit)
    ensures AllRender(Select(es, t), lit)
  {
    if |es| > 0 {
      SelectRender(es[..|es| - 1], t, lit);
    }
  }

  /** Every term's fragments come from the tagged entries, so they bind. */
  lemma GroupByTermRender(es: seq<Tagged>, lit: Json -> string)
    requires EntriesRender(es, lit)
    ensures GroupsRender(GroupByTerm(es), lit)
  {
    var gs := GroupByTerm(es);
    GroupByTermSpec(es);
    forall i | 0 <= i < |gs| ensures AllRender(gs[i].frags, lit) {
      FragsForDistinct(gs, i);
      SelectRender(es, gs[i].term, lit);
    }
  }

  /** The property the compiler rests on: once its parameters are bound,
      the filter `sql()` returns reads as the rule fragments and the
      pattern parts with their own parameters in place, so the i-th `%s`
      of the template receives the i-th parameter and the counts agree.
      It holds for every tree whose rules can be found, provided the
      column name has no `%`. */
  lemma SqlRenders(field: string, tree: Json, lit: Json -> string)
    requires '%' !in field
    requires GetRules(field, tree, []).Ok?
    ensures AllLocatable(GetRules(field, tree, []).value)
    ensures var rules := GetRules(field, tree, []).value;
      CompileRules(rules).Ok? ==>
        var c := CompileRules(rules).value;
        && AllRender(c.leafs, lit)
        && GroupsRender(GroupByTerm(c.entries), lit)
        && Render(Compile(rules).value, lit) ==
             Some(FilterString(Join(" AND ", RenderAll(c.leafs, lit)), PatternString(RenderGroups(GroupByTerm(c.entries), lit))))
        && Placeholders(Compile(rules).value.sql) == |Compile(rules).value.params|
  {
    var rules := GetRules(field, tree, []).value;
    GetRulesSound(field, tree, []);
    assert forall i :: 0 <= i < |rules| ==> Locatable(rules[i]) && rules[i].path[0] == field by {
      forall i | 0 <= i < |rules| ensures Locatable(rules[i]) && rules[i].path[0] == field {
        assert rules[i] in rules;
        assert SoundAt(field, tree, [], rules[i]);
        assert rules[i].path[..1] == [field];
      }
    }
    if CompileRules(rules).Ok? {
      var c := CompileRules(rules).value;
      CompileRulesReady(rules, lit);
      GroupByTermRender(c.entries, lit);
      AssembleRenders(c.leafs, GroupByTerm(c.entries), lit);
      var f := Compile(rules).value;
      InterpolateArity(f.sql, Literals(f.params, lit));
    }
  }

  // ---------------------------------------------------------------------
  // Errors stop the loops

  lemma {:induction false} CompileRulesStops(rules: seq<Located>, k: nat)
    requires AllLocatable(rules) && k <= |rules|
    requires CompileRules(rules[..k]).Err?
    ensures CompileRules(rules) == CompileRules(rules[..k])
    decreases |rules|
  {
    if k < |rules| {
      var prefix := rules[..|rules| - 1];
      assert prefix[..k] == rules[..k];
      CompileRulesStops(prefix, k);
    } else {
      assert rules[..k] == rules;
    }
  }

  lemma {:induction false} TagTermsStops(path: seq<string>, terms: seq<string>, multiple: bool, k: nat)
    requires |path| >= 1 && k <= |terms|
    requires TagTerms(path, terms[..k], multiple).Err?
    ensures TagTerms(path, terms, multiple) == TagTerms(path, terms[..k], multiple)
    decreases |terms|
  {
    if k < |terms| {
      var prefix := terms[..|terms| - 1];
      assert prefix[..k] == terms[..k];
      TagTermsStops(path, prefix, multiple, k);
    } else {
      assert terms[..k] == terms;
    }
  }

  /** The rules of a tree `get_rules` accepted are ready to compile. */
  lemma RulesLocatable(field: string, tree: Json)
    requires GetRules(field, tree, []).Ok?
    ensures AllLocatable(GetRules(field, tree, []).value)
  {
    var rules := GetRules(field, tree, []).value;
    GetRulesSound(field, tree, []);
    forall i | 0 <= i < |rules| ensures Locatable(rules[i]) {
      assert rules[i] in rules;
    }
  }

  // ---------------------------------------------------------------------
  // FilterTree

  /** `FilterTree(tree, field)`: the query tree, the column it filters, and
      the rules found in the tree when the object is made. The generator
      table is `RuleTypeOf` and `Generate`. */
  class FilterTree {
    const field: string
    const tree: Json
    const rules: seq<Located>

    /** The rules are the ones `get_rules` finds in the tree. */
    predicate Valid()
    {
      GetRules(field, tree, []) == Ok(rules)
    }

    /** `__init__`, for a tree whose walk raises nothing. */
    constructor(tree: Json, field: string)
      requires GetRules(field, tree, []).Ok?
      ensures this.field == field && this.tree == tree && Valid()
    {
      this.field := field;
      this.tree := tree;
      this.rules := GetRules(field, tree, []).value;
    }

    /** `FilterTree(tree, field)`: the TypeError `get_rules` can raise
        instead of an object. */
    static method Create(tree: Json, field: string) returns (r: Result<FilterTree, Error>)
      ensures r.Err? ==> GetRules(field, tree, []) == Err(r.error)
      ensures r.Ok? ==> fresh(r.value) && r.value.field == field && r.value.tree == tree && r.value.Valid()
    {
      var found := GetRules(field, tree, []);
      if found.Err? {
        return Err(found.error);
      }
      var t := new FilterTree(tree, field);
      return Ok(t);
    }

    /** `sql()`: the rules in order, each one's own fragment into
        `rule_specs` and each of its pattern terms into `patterns`, then
        the filter string and the flattened parameters. */
    method Sql() returns (r: Result<Fragment, Error>)
      requires Valid()
      ensures AllLocatable(rules) && r == Compile(rules)
    {
      RulesLocatable(field, tree);
      var ruleSpecs: seq<Fragment> := [];
      var patterns: seq<Group> := [];
      ghost var entries: seq<Tagged> := [];
      var i := 0;
      while i < |rules|
        invariant 0 <= i <= |rules|
        invariant CompileRules(rules[..i]) == Ok(Compiled(ruleSpecs, entries))
        invariant patterns == GroupByTerm(entries)
      {
        assert rules[..i + 1][..i] == rules[..i];
        assert rules[..i + 1][i] == rules[i];
        var step := AddRule(rules[i], ruleSpecs, patterns, entries);
        if step.Err? {
          CompileRulesStops(rules, i + 1);
          return Err(step.error);
        }
        entries := CompileRule(Compiled(ruleSpecs, entries), rules[i]).value.entries;
        ruleSpecs, patterns := step.value.0, step.value.1;
        i := i + 1;
      }
      assert rules[..i] == rules;
      var f := AssembleFilter(ruleSpecs, patterns);
      r := Ok(f);
    }
  }

  /** The body of the loop of `sql()` for one rule: its generator's
      fragment is appended to `rule_specs`, and one text-similarity fragment
      per pattern term is added to `patterns`. */
  method AddRule(loc: Located, ruleSpecs: seq<Fragment>, patterns: seq<Group>, ghost entries: seq<Tagged>)
    returns (r: Result<(seq<Fragment>, seq<Group>), Error>)
    requires Locatable(loc) && patterns == GroupByTerm(entries)
    ensures CompileRule(Compiled(ruleSpecs, entries), loc).Err? ==>
      r == Err(CompileRule(Compiled(ruleSpecs, entries), loc).error)
    ensures CompileRule(Compiled(ruleSpecs, entries), loc).Ok? ==>
      var c := CompileRule(Compiled(ruleSpecs, entries), loc).value;
      r == Ok((c.leafs, GroupByTerm(c.entries)))
  {
    var path, rule := loc.path, loc.rule;
    var ruleType := RuleTypeOf(rule).value;
    var multiple := ruleType == ContainmentMultiple;
    var sqlTuple: Option<Fragment>;
    if ruleType == IntRange {
      sqlTuple := IntrangeFilter(path, rule);
    } else {
      var c := CompileContainment(path, rule, multiple);
      if c.Err? {
        return Err(c.error);
      }
      sqlTuple := c.value;
    }
    var specs := if sqlTuple.Some? then ruleSpecs + [sqlTuple.value] else ruleSpecs;
    var terms := PatternTerms(rule);
    if terms.Err? {
      return Err(terms.error);
    }
    var grouped := AddPatternTerms(path, terms.value, multiple, patterns, entries);
    if grouped.Err? {
      return Err(grouped.error);
    }
    return Ok((specs, grouped.value));
  }

  /** The inner loop of `sql()`: `patterns.setdefault(term, []).append(...)`
      for each term of one rule's pattern. */
  method AddPatternTerms(path: seq<string>, terms: seq<string>, multiple: bool, patterns: seq<Group>, ghost entries: seq<Tagged>)
    returns (r: Result<seq<Group>, Error>)
    requires |path| >= 1 && patterns == GroupByTerm(entries)
    ensures TagTerms(path, terms, multiple).Err? ==> r == Err(TagTerms(path, terms, multiple).error)
    ensures TagTerms(path, terms, multiple).Ok? ==> r == Ok(GroupByTerm(entries + TagTerms(path, terms, multiple).value))
  {
    var groups := patterns;
    ghost var tagged: seq<Tagged> := [];
    assert entries + tagged == entries;
    var j := 0;
    while j < |terms|
      invariant 0 <= j <= |terms|
      invariant TagTerms(path, terms[..j], multiple) == Ok(tagged)
      invariant groups == GroupByTerm(entries + tagged)
    {
      var term := terms[j];
      assert terms[..j + 1][..j] == terms[..j];
      var sqlTerm := TextSimilarityFilter(path, term, multiple);
      if sqlTerm.Err? {
        TagTermsStops(path, terms, multiple, j + 1);
        return Err(sqlTerm.error);
      }
      groups := SetDefaultAppend(groups, term, sqlTerm.value);
      GroupByTermStep(entries, tagged, Tagged(term, sqlTerm.value));
      tagged := tagged + [Tagged(term, sqlTerm.value)];
      j := j + 1;
    }
    assert terms[..j] == terms;
    return Ok(groups);
  }

  /** The end of `sql()`: `pattern_strings` and `pattern_specs` built term
      by term, then the filter string and the flattened parameters. */
  method AssembleFilter(ruleSpecs: seq<Fragment>, patterns: seq<Group>) returns (f: Fragment)
    ensures f == Assemble(ruleSpecs, patterns)
  {
    var ruleString := Join(" AND ", Sqls(ruleSpecs));
    var patternStrings: seq<string> := [];
    var patternSpecs: seq<Fragment> := [];
    var k := 0;
    while k < |patterns|
      invariant 0 <= k <= |patterns|
      invariant patternStrings == PatternStrings(patterns[..k])
      invariant patternSpecs == PatternSpecs(patterns[..k])
    {
      assert patterns[..k + 1][..k] == patterns[..k];
      patternStrings := patternStrings + [Join(" OR ", Sqls(patterns[k].frags))];
      patternSpecs := patternSpecs + patterns[k].frags;
      k := k + 1;
    }
    assert patterns[..k] == patterns;
    var patternString := PatternString(patternStrings);
    var filterString := FilterString(ruleString, patternString);
    f := Fragment(filterString, Flatten(ParamLists(ruleSpecs + patternSpecs)));
  }

  // ---------------------------------------------------------------------
  // A rule at the root of the tree

  /** `{"_rule_type": "intrange", "min": 1}`, used as a whole query tree. */
  function RootRangeRule(): seq<Member>
  {
    [Member("_rule_type", JStr("intrange")), Member("min", JNum(1))]
  }

  /** `get_rules` finds a rule at the root at the one-element path
      `[field]`; it has a lower bound `1` and no upper bound. */
  lemma RootRangeRuleLocated(field: string)
    ensures GetRules(field, JObj(RootRangeRule()), []) == Ok([Located([field], RootRangeRule())])
    ensures HasBound(RootRangeRule(), "min") && Bound(RootRangeRule(), "min") == JNum(1)
    ensures !HasBound(RootRangeRule(), "max")
  {
    var rule := RootRangeRule();
    assert Get(rule, "_rule_type") == Some(JStr("intrange"));
    assert Get(rule, "min") == Some(JNum(1));
    assert rule[1..][1..] == [];
    assert Get(rule, "max") == None;
    assert [field] + [] == [field];
  }

  /** The finding, as written: `intrange_filter([field], rule)` over the
      traversal `operator_at_traversal_path` builds for a one-element path
      drops the column, giving `((->>%s)::int >= %s)`, and leaves two
      placeholders for the one parameter. */
  lemma RootRuleAsWritten(field: string)
    ensures IntrangeWith(OperatorAtTraversalPath([field], "->>"), [], RootRangeRule()) ==
            Some(Fragment("(" + ("(" + ("->>" + "%s") + ")::int" + " >= " + "%s") + ")", [JNum(1)]))
    ensures Placeholders(IntrangeWith(OperatorAtTraversalPath([field], "->>"), [], RootRangeRule()).value.sql) == 2
  {
    RootRangeRuleLocated(field);
    SingleElementTraversal(field, "->>");
    assert KeyParams([]) + [JNum(1)] == [JNum(1)];
    var traversal := "->>" + "%s";
    InterpolateLiteral("->>");
    InterpolateSlot("");
    InterpolateBoth("->>", "%s", [], [""]);
    assert [] + [""] == [""];
    CompareBinds(traversal, [""], " >= ", "");
    InterpolateWrap("(", "(" + traversal + ")::int" + " >= " + "%s", ")", [""] + [""]);
    InterpolateArity("(" + ("(" + traversal + ")::int" + " >= " + "%s") + ")", [""] + [""]);
  }

  /** The finding, corrected: with the column as the traversal of a
      one-element path the same rule gives `((field)::int >= %s)`, whose
      one placeholder meets the one parameter. */
  lemma RootRuleCorrected(field: string)
    requires '%' !in field
    ensures IntrangeFilter([field], RootRangeRule()) == Some(Fragment("((" + field + ")::int >= %s)", [JNum(1)]))
    ensures Placeholders(IntrangeFilter([field], RootRangeRule()).value.sql) == 1
  {
    RootRangeRuleLocated(field);
    SingleElementTraversal(field, "->>");
    assert "(" + ("(" + field + ")::int" + " >= " + "%s") + ")" == "((" + field + ")::int >= %s)";
    assert KeyParams([]) + [JNum(1)] == [JNum(1)];
    var lit: Json -> string := j => "";
    IntrangeRenders([field], RootRangeRule(), lit);
    var f := IntrangeFilter([field], RootRangeRule()).value;
    InterpolateArity(f.sql, Literals(f.params, lit));
  }
}
