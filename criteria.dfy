/**
 * The values a record browser accumulates: filter leaves grouped by their
 * boolean operator, the cache-key tokens each builder call contributes, the
 * fold of the groups into `$and` / `$or` criteria, and the paging window.
 */
module BrowseCriteria {
  import opened PhpValues

  /** The argument of one query operator. */
  datatype Operand =
    | Plain(v: Value)                         // `$eq`, `$lt`, ... against a value
    | Pattern(regex: string, flags: string)   // a `MongoDB\BSON\Regex`
    | Items(entries: seq<Pair>)               // `$in`, `$nin`, `$all`, `$elemMatch` against an array

  datatype Test = Test(op: string, arg: Operand)

  /** One filter leaf: `[attribute => [op => arg, ...]]`, or the literal text the null conditions store. */
  datatype Leaf = FieldTest(attribute: string, tests: seq<Test>) | Clause(text: string)

  /** The leaves accumulated under one operator name, as `conditions[op]` holds them. */
  datatype OpGroup = OpGroup(op: string, leaves: seq<Leaf>)

  // ------------------------------------------------------------ leaves

  /** The `$regex` leaf of the contains / begins-with / ends-with / regex conditions (always case-insensitive). */
  function RegexLeaf(attribute: string, pattern: string): Leaf
  {
    FieldTest(attribute, [Test("$regex", Pattern(pattern, "i"))])
  }

  /** A comparison leaf: `[attribute => [op => value]]`. */
  function CompareLeaf(attribute: string, op: string, v: Value): Leaf
  {
    FieldTest(attribute, [Test(op, Plain(v))])
  }

  /** `betweenCondition`'s leaf as written: both bounds are the high value. */
  function BetweenLeafAsWritten(attribute: string, low: Value, high: Value): Leaf
  {
    FieldTest(attribute, [Test("$lt", Plain(high)), Test("$gt", Plain(high))])
  }

  /** `betweenCondition`'s leaf as intended: strictly above the low value and strictly below the high one. */
  function BetweenLeaf(attribute: string, low: Value, high: Value): Leaf
  {
    FieldTest(attribute, [Test("$lt", Plain(high)), Test("$gt", Plain(low))])
  }

  /** A leaf against an array: `[attribute => [op => (array)list]]`. */
  function ListLeaf(attribute: string, op: string, list: seq<Pair>): Leaf
  {
    FieldTest(attribute, [Test(op, Items(list))])
  }

  /** The string form of a `MongoDB\BSON\Regex`: `/pattern/flags`. */
  function RegexText(pattern: string, flags: string): string
  {
    "/" + pattern + "/" + flags
  }

  // ------------------------------------------------------------ tokens

  /** The token of a condition on one value: `name-attribute-value`. */
  function ValueToken(name: string, attribute: string, v: Value): string
  {
    name + "-" + attribute + "-" + Str(v)
  }

  function Strs(entries: seq<Pair>): (r: seq<string>)
    ensures |r| == |entries|
    ensures forall k :: 0 <= k < |entries| ==> r[k] == Str(entries[k].val)
  {
    seq(|entries|, k requires 0 <= k < |entries| => Str(entries[k].val))
  }

  /** The token of a condition on an array: `name-attribute` directly followed by `implode("-", list)`. */
  function ListToken(name: string, attribute: string, list: seq<Pair>): string
  {
    name + "-" + attribute + Join(Strs(list), "-")
  }

  /** `betweenCondition`'s token, which carries both bounds. */
  function BetweenToken(attribute: string, low: Value, high: Value): string
  {
    "betweenCondition-" + attribute + "-" + Str(low) + "-" + Str(high)
  }

  /**
   * The numeric part of the query language's comparison operators: whether
   * an integer field value passes one test against an integer. A test of any
   * other shape is not decided here and counts as failed.
   */
  predicate PassesTest(x: int, t: Test)
  {
    t.arg.Plain? && t.arg.v.VInt? &&
    var h := t.arg.v.i;
    (t.op == "$lt" && x < h) || (t.op == "$lte" && x <= h) || (t.op == "$gt" && x > h) ||
    (t.op == "$gte" && x >= h) || (t.op == "$eq" && x == h) || (t.op == "$ne" && x != h)
  }

  /** A field value passes a leaf when it passes every test the leaf puts on the field. */
  predicate PassesLeaf(x: int, leaf: Leaf)
  {
    leaf.FieldTest? && forall t :: t in leaf.tests ==> PassesTest(x, t)
  }

  /** The comparison leaves select what their operator names. */
  lemma CompareLeafMeans(attribute: string, x: int, h: int)
    ensures PassesLeaf(x, CompareLeaf(attribute, "$eq", VInt(h))) <==> x == h
    ensures PassesLeaf(x, CompareLeaf(attribute, "$ne", VInt(h))) <==> x != h
    ensures PassesLeaf(x, CompareLeaf(attribute, "$gt", VInt(h))) <==> x > h
    ensures PassesLeaf(x, CompareLeaf(attribute, "$gte", VInt(h))) <==> x >= h
    ensures PassesLeaf(x, CompareLeaf(attribute, "$lt", VInt(h))) <==> x < h
    ensures PassesLeaf(x, CompareLeaf(attribute, "$lte", VInt(h))) <==> x <= h
  {
    forall op | op in ["$eq", "$ne", "$gt", "$gte", "$lt", "$lte"]
      ensures PassesLeaf(x, CompareLeaf(attribute, op, VInt(h))) <==> PassesTest(x, Test(op, Plain(VInt(h))))
    {
      assert CompareLeaf(attribute, op, VInt(h)).tests[0] in CompareLeaf(attribute, op, VInt(h)).tests;
    }
  }

  /** As written, a between filter selects no integer at all, whatever the bounds. */
  lemma BetweenAsWrittenSelectsNothing(attribute: string, low: int, high: int, x: int)
    ensures !PassesLeaf(x, BetweenLeafAsWritten(attribute, VInt(low), VInt(high)))
  {
    var leaf := BetweenLeafAsWritten(attribute, VInt(low), VInt(high));
    assert leaf.tests[0] in leaf.tests && leaf.tests[1] in leaf.tests;
  }

  /** As intended, a between filter selects exactly the integers strictly inside the bounds. */
  lemma BetweenLeafMeans(attribute: string, low: int, high: int, x: int)
    ensures PassesLeaf(x, BetweenLeaf(attribute, VInt(low), VInt(high))) <==> low < x < high
  {
    var leaf := BetweenLeaf(attribute, VInt(low), VInt(high));
    assert leaf.tests[0] in leaf.tests && leaf.tests[1] in leaf.tests;
  }

  /**
   * The between token carries both bounds, so two ranges that differ in
   * their low bound are cached under different keys, while the filter as
   * written does not depend on the low bound at all.
   */
  lemma BetweenIgnoresLow(attribute: string, low: Value, high: Value, low2: Value)
    ensures BetweenLeafAsWritten(attribute, low, high) == BetweenLeafAsWritten(attribute, low2, high)
    ensures Str(low) != Str(low2) ==> BetweenToken(attribute, low, high) != BetweenToken(attribute, low2, high)
  {
    if Str(low) != Str(low2) {
      var a := "betweenCondition-" + attribute + "-";
      var u := Str(low) + "-" + Str(high);
      var v := Str(low2) + "-" + Str(high);
      assert BetweenToken(attribute, low, high) == a + u;
      assert BetweenToken(attribute, low2, high) == a + v;
      NoDashSuffixes(Str(low), Str(low2), Str(high));
      SamePrefixDiffers(a, u, v);
    }
  }

  /** Different texts after the same prefix stay different. */
  lemma SamePrefixDiffers(a: string, u: string, v: string)
    requires u != v
    ensures a + u != a + v
  {
    assert (a + u)[|a|..] == u && (a + v)[|a|..] == v;
  }

  /** Different texts followed by the same `-suffix` stay different. */
  lemma NoDashSuffixes(x: string, y: string, h: string)
    requires x != y
    ensures x + "-" + h != y + "-" + h
  {
    var tx := x + "-" + h;
    var ty := y + "-" + h;
    if |x| == |y| {
      var k :| 0 <= k < |x| && x[k] != y[k];
      assert tx[k] == x[k] && ty[k] == y[k];
    } else {
      assert |tx| != |ty|;
    }
  }

  // ------------------------------------------------------------ conditions

  /** The operator names in the order they were first used. */
  function Ops(groups: seq<OpGroup>): (r: seq<string>)
    ensures |r| == |groups|
  {
    seq(|groups|, k requires 0 <= k < |groups| => groups[k].op)
  }

  /** An operator name has at most one group, as a PHP array key has one entry. */
  predicate DistinctOps(groups: seq<OpGroup>)
  {
    forall i, j :: 0 <= i < j < |groups| ==> groups[i].op != groups[j].op
  }

  /** `conditions[op]`, or nothing when that operator was never used. */
  function LeavesOf(groups: seq<OpGroup>, op: string): seq<Leaf>
  {
    if |groups| == 0 then []
    else if groups[0].op == op then groups[0].leaves
    else LeavesOf(groups[1..], op)
  }

  /** `conditions[op][] = leaf`. */
  function AddLeaf(groups: seq<OpGroup>, op: string, leaf: Leaf): seq<OpGroup>
  {
    if |groups| == 0 then [OpGroup(op, [leaf])]
    else if groups[0].op == op then [OpGroup(op, groups[0].leaves + [leaf])] + groups[1..]
    else [groups[0]] + AddLeaf(groups[1..], op, leaf)
  }

  /** The number of accumulated leaves. */
  function LeafCount(groups: seq<OpGroup>): nat
  {
    if |groups| == 0 then 0 else |groups[0].leaves| + LeafCount(groups[1..])
  }

  /**
   * Adding a leaf appends exactly it to its operator's list and leaves
   * every other operator's list alone.
   */
  lemma {:induction false} AddLeafMeans(groups: seq<OpGroup>, op: string, leaf: Leaf, other: string)
    ensures LeavesOf(AddLeaf(groups, op, leaf), op) == LeavesOf(groups, op) + [leaf]
    ensures other != op ==> LeavesOf(AddLeaf(groups, op, leaf), other) == LeavesOf(groups, other)
    ensures LeafCount(AddLeaf(groups, op, leaf)) == LeafCount(groups) + 1
  {
    if |groups| > 0 {
      AddLeafMeans(groups[1..], op, leaf, other);
      var r := AddLeaf(groups, op, leaf);
      if groups[0].op == op {
        assert r[1..] == groups[1..];
      } else {
        assert r[1..] == AddLeaf(groups[1..], op, leaf);
      }
    }
  }

  /** A new operator is added after all the existing ones; a known one keeps its place. */
  lemma {:induction false} AddLeafOrder(groups: seq<OpGroup>, op: string, leaf: Leaf)
    ensures Ops(AddLeaf(groups, op, leaf)) == if op in Ops(groups) then Ops(groups) else Ops(groups) + [op]
  {
    if |groups| > 0 {
      var rest := groups[1..];
      AddLeafOrder(rest, op, leaf);
      assert Ops(groups) == [groups[0].op] + Ops(rest);
      var r := AddLeaf(groups, op, leaf);
      if groups[0].op == op {
        assert r[1..] == rest;
        assert Ops(r) == [op] + Ops(rest);
      } else {
        assert r[1..] == AddLeaf(rest, op, leaf);
        assert Ops(r) == [groups[0].op] + Ops(AddLeaf(rest, op, leaf));
        assert op in Ops(groups) <==> op in Ops(rest);
      }
    }
  }

  /** No operator ever gets a second group. */
  lemma AddLeafKeepsDistinct(groups: seq<OpGroup>, op: string, leaf: Leaf)
    requires DistinctOps(groups)
    ensures DistinctOps(AddLeaf(groups, op, leaf))
  {
    AddLeafOrder(groups, op, leaf);
    var r := AddLeaf(groups, op, leaf);
    forall i, j | 0 <= i < j < |r| ensures r[i].op != r[j].op {
      assert r[i].op == Ops(r)[i] && r[j].op == Ops(r)[j];
      if j == |groups| {
        assert Ops(r)[j] == op && op !in Ops(groups);
        assert Ops(r)[i] == Ops(groups)[i] && Ops(groups)[i] in Ops(groups);
      } else {
        assert Ops(r)[i] == groups[i].op && Ops(r)[j] == groups[j].op;
      }
    }
  }

  // ------------------------------------------------------------ criteria

  type Criteria = map<string, seq<Leaf>>

  /** `opMap[strtolower(op)]`: `$and`, `$or`, or, for any other operator, the key null becomes (""). */
  function OpKey(op: string): string
  {
    if Lower(op) == "and" then "$and" else if Lower(op) == "or" then "$or" else ""
  }

  function Under(c: Criteria, key: string): seq<Leaf>
  {
    if key in c then c[key] else []
  }

  /** `criteria[key][] = leaf` for each leaf in turn. */
  function AppendUnder(c: Criteria, key: string, leaves: seq<Leaf>): Criteria
  {
    if |leaves| == 0 then c
    else
      var front := AppendUnder(c, key, leaves[..|leaves| - 1]);
      front[key := Under(front, key) + [leaves[|leaves| - 1]]]
  }

  /** The criteria after `generateCriteria` has visited the groups in order. */
  function Generate(c: Criteria, groups: seq<OpGroup>): Criteria
  {
    if |groups| == 0 then c
    else
      var last := groups[|groups| - 1];
      AppendUnder(Generate(c, groups[..|groups| - 1]), OpKey(last.op), last.leaves)
  }

  /** The leaves of the groups whose operator maps to `key`, in order. */
  function Selected(groups: seq<OpGroup>, key: string): seq<Leaf>
  {
    if |groups| == 0 then []
    else
      var last := groups[|groups| - 1];
      Selected(groups[..|groups| - 1], key) + (if OpKey(last.op) == key then last.leaves else [])
  }

  lemma {:induction false} AppendUnderMeans(c: Criteria, key: string, leaves: seq<Leaf>, k: string)
    ensures Under(AppendUnder(c, key, leaves), k) == Under(c, k) + (if k == key then leaves else [])
    ensures AppendUnder(c, key, leaves).Keys == c.Keys + (if |leaves| > 0 then {key} else {})
  {
    if |leaves| > 0 {
      var init := leaves[..|leaves| - 1];
      var front := AppendUnder(c, key, init);
      AppendUnderMeans(c, key, init, k);
      AppendUnderMeans(c, key, init, key);
      assert AppendUnder(c, key, leaves) == front[key := Under(front, key) + [leaves[|leaves| - 1]]];
      assert init + [leaves[|leaves| - 1]] == leaves;
    }
  }

  /**
   * `generateCriteria` appends, under each key, the leaves of the groups
   * that map to it in insertion order, after whatever was already there:
   * nothing is ever cleared.
   */
  lemma {:induction false} GenerateMeans(c: Criteria, groups: seq<OpGroup>, key: string)
    ensures Under(Generate(c, groups), key) == Under(c, key) + Selected(groups, key)
    ensures c.Keys <= Generate(c, groups).Keys
  {
    if |groups| > 0 {
      var front := groups[..|groups| - 1];
      var last := groups[|groups| - 1];
      GenerateMeans(c, front, key);
      AppendUnderMeans(Generate(c, front), OpKey(last.op), last.leaves, key);
    }
  }

  /** Generating twice from the same conditions lists every leaf twice. */
  lemma GenerateTwice(c: Criteria, groups: seq<OpGroup>, key: string)
    ensures Under(Generate(Generate(c, groups), groups), key) == Under(c, key) + Selected(groups, key) + Selected(groups, key)
  {
    GenerateMeans(c, groups, key);
    GenerateMeans(Generate(c, groups), groups, key);
  }

  /** The criteria after `n` calls of `generateCriteria`. */
  function GenerateTimes(c: Criteria, groups: seq<OpGroup>, n: nat): Criteria
  {
    if n == 0 then c else Generate(GenerateTimes(c, groups, n - 1), groups)
  }

  lemma GenerateTimesStep(c: Criteria, groups: seq<OpGroup>, n: nat)
    ensures GenerateTimes(c, groups, n + 2) == Generate(Generate(GenerateTimes(c, groups, n), groups), groups)
  {
  }

  // ------------------------------------------------------------ paging

  /** `browse`'s offset: `pageNo * limit - limit` for a positive page, 0 otherwise. */
  function Offset(pageNo: int, limit: int): int
  {
    if pageNo > 0 then pageNo * limit - limit else 0
  }

  /** Consecutive pages are consecutive windows of `limit` items, starting at item 0. */
  lemma OffsetWindows(pageNo: int, limit: int)
    ensures Offset(1, limit) == 0 && Offset(0, limit) == 0
    ensures pageNo >= 1 ==> Offset(pageNo + 1, limit) == Offset(pageNo, limit) + limit
    ensures pageNo >= 1 && limit >= 0 ==> Offset(pageNo, limit) == (pageNo - 1) * limit >= 0
    ensures Offset(3, 10) == 20
  {
  }

  /** The four tokens `browse` appends for one page. */
  function PageTokens(pageNo: int, perPage: int): seq<string>
  {
    ["page-" + IntToString(pageNo), "perPage-" + IntToString(perPage),
     "LIMIT-" + IntToString(perPage), "OFFSET-" + IntToString(Offset(pageNo, perPage))]
  }

  /** The tokens of browsing pages 1 to n in ascending order. */
  function TokensUpTo(n: nat, perPage: int): (r: seq<string>)
    ensures |r| == 4 * n
  {
    if n == 0 then [] else TokensUpTo(n - 1, perPage) + PageTokens(n, perPage)
  }

  /** Page x's tokens sit at position 4(x-1), so the pages are visited in ascending order. */
  lemma {:induction false} TokensUpToOrder(n: nat, perPage: int, x: nat)
    requires 1 <= x <= n
    ensures TokensUpTo(n, perPage)[4 * (x - 1)..4 * x] == PageTokens(x, perPage)
  {
    if x < n {
      TokensUpToOrder(n - 1, perPage, x);
      assert TokensUpTo(n, perPage)[..4 * (n - 1)] == TokensUpTo(n - 1, perPage);
    } else {
      assert TokensUpTo(n, perPage)[4 * (n - 1)..] == PageTokens(n, perPage);
    }
  }

  /** What `getCacheKey` hashes: the model type and the tokens, joined with `::`. */
  function KeySource(modelType: string, tokens: seq<string>): string
  {
    modelType + "::" + Join(tokens, "::")
  }
}
