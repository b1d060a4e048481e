/**
 * The record browser: a builder that accumulates filter conditions and
 * cache-key tokens, folds the conditions into criteria, and fetches one
 * page of records at a time through the application cache.
 *
 * The model class's count and find queries, the pager's page count and the
 * md5 digest are constant function fields fixed when the browser is made.
 */
module RecordBrowser {
  import opened PhpValues
  import opened BrowseCriteria

  /** The pager's state as the browser sets it: item count, zero-based current page and page size. */
  datatype Paging = Paging(itemCount: Option<int>, currentPage: Option<int>, pageSize: Option<int>)

  /** The options `browse` passes to `findAll`. */
  datatype FindOptions = FindOptions(skip: int, limit: int, sort: Option<(string, int)>)

  /** `sortDirection(0)` answers the current direction; any other call returns the browser itself. */
  datatype DirectionReply = CurrentDirection(direction: Option<int>) | Chained

  /** The page number `browse` and `pagingInfo` work on: the stored one when the argument is null, the argument cast to int otherwise. */
  function PageArg(arg: Value, stored: int): (p: int)
    ensures arg.VNull? ==> p == stored
    ensures arg.VInt? ==> p == arg.i
    ensures arg.VStr? ==> p == StrToInt(arg.s)
  {
    if arg.VNull? then stored else IntCast(arg)
  }

  /**
   * The direction a `sortDirection` call stores: nothing for an argument
   * loosely equal to 0 (the call is a query), -1 for one loosely equal to
   * -1, and 1 for anything else.
   */
  function DirectionSet(direction: Value): (r: Option<int>)
    ensures r.None? <==> LooseEq(direction, VInt(0))
    ensures r.Some? ==> r.value == 1 || r.value == -1
    ensures r == Some(-1) <==> !LooseEq(direction, VInt(0)) && LooseEq(direction, VInt(-1))
  {
    if LooseEq(direction, VInt(0)) then None
    else if LooseEq(direction, VInt(-1)) then Some(-1)
    else Some(1)
  }

  /** Null and 0 query the direction, -1 and `true` set descending (true is loosely equal to -1), 2 sets ascending. */
  lemma DirectionSetCases()
    ensures DirectionSet(VNull) == None && DirectionSet(VInt(0)) == None
    ensures DirectionSet(VInt(-1)) == Some(-1) && DirectionSet(VBool(true)) == Some(-1)
    ensures DirectionSet(VInt(2)) == Some(1)
  {
  }

  /** `(int)$this->sortDirection`, with null read as 0. */
  function DirectionInt(d: Option<int>): int
  {
    if d.Some? then d.value else 0
  }

  /** The options of a page query: the window, and a sort only when a sort attribute is set. */
  function PageOptions(pageNo: int, perPage: int, sortBy: Value, direction: Option<int>): (o: FindOptions)
    ensures o.skip == Offset(pageNo, perPage) && o.limit == perPage
    ensures o.sort.Some? <==> !IsEmpty(sortBy)
    ensures o.sort.Some? ==> o.sort.value == (Str(sortBy), DirectionInt(direction))
  {
    FindOptions(Offset(pageNo, perPage), perPage,
                if IsEmpty(sortBy) then None else Some((Str(sortBy), DirectionInt(direction))))
  }

  /** The application cache: entries never expire in this model. */
  class Cache {
    var entries: map<string, seq<Value>>

    constructor()
      ensures entries == map[]
    {
      entries := map[];
    }

    /** `cache->add`: stores only when the key is absent, and says whether it stored. */
    method Add(key: string, value: seq<Value>) returns (added: bool)
      modifies this
      ensures added <==> key !in old(entries)
      ensures entries == if added then old(entries)[key := value] else old(entries)
    {
      added := key !in entries;
      if added {
        entries := entries[key := value];
      }
    }
  }

  /** `cache->get(key)` read as a boolean: present and a non-empty array. */
  predicate HitIn(entries: map<string, seq<Value>>, key: string)
  {
    key in entries && entries[key] != []
  }

  /** The browser only ever caches non-empty results. */
  predicate NoEmptyEntries(entries: map<string, seq<Value>>)
  {
    forall k :: k in entries ==> entries[k] != []
  }

  /** What one page request returns, what the cache holds afterwards, and whether it was a hit. */
  datatype PageResult = PageResult(records: seq<Value>, entries: map<string, seq<Value>>, hit: bool)

  /**
   * Serving a page under `key`: unless refreshing is forced, a cached
   * non-empty result is a hit; otherwise the query's result `found` is
   * returned and, when non-empty, added to the cache if the key is absent.
   */
  function Served(entries: map<string, seq<Value>>, key: string, forceRefresh: bool, found: seq<Value>): PageResult
  {
    if !forceRefresh && HitIn(entries, key) then PageResult(entries[key], entries, true)
    else PageResult(found, if found != [] && key !in entries then entries[key := found] else entries, false)
  }

  /**
   * A hit returns the cached records and changes nothing; a miss returns the
   * query's records; either way no entry is lost or replaced, and the cache
   * only ever gains the key being served.
   */
  lemma ServedMeans(entries: map<string, seq<Value>>, key: string, forceRefresh: bool, found: seq<Value>)
    ensures var r := Served(entries, key, forceRefresh, found);
      (r.hit <==> !forceRefresh && HitIn(entries, key)) &&
      (r.hit ==> r.records == entries[key] && r.entries == entries) &&
      (!r.hit ==> r.records == found) &&
      CacheGrows(entries, r.entries) && r.entries.Keys <= entries.Keys + {key} &&
      (NoEmptyEntries(entries) ==> NoEmptyEntries(r.entries))
  {
  }

  /**
   * Once a page has been served with a non-empty result, serving the same
   * key again without forcing a refresh is a hit that returns what the cache
   * holds, whatever the query would now return.
   */
  lemma ServedAgainHits(entries: map<string, seq<Value>>, key: string, force: bool, found: seq<Value>, later: seq<Value>)
    requires NoEmptyEntries(entries)
    requires Served(entries, key, force, found).records != []
    ensures var first := Served(entries, key, force, found);
      var second := Served(first.entries, key, false, later);
      second.hit && second.records == first.entries[key] && second.entries == first.entries
  {
  }

  /** Every entry that was in the cache is still there with the same records. */
  ghost predicate CacheGrows(before: map<string, seq<Value>>, after: map<string, seq<Value>>)
  {
    before.Keys <= after.Keys && forall k :: k in before ==> after[k] == before[k]
  }

  lemma CacheGrowsTransitive(a: map<string, seq<Value>>, b: map<string, seq<Value>>, c: map<string, seq<Value>>)
    requires CacheGrows(a, b) && CacheGrows(b, c)
    ensures CacheGrows(a, c)
  {
  }

  class Browser {
    const modelType: string
    const countOf: Criteria -> nat
    const findAll: (Criteria, FindOptions) -> seq<Value>
    const pageCountOf: Paging -> nat
    const digest: string -> string

    var cacheLife: Value
    var cacheKey: seq<string>
    var conditions: seq<OpGroup>
    var paging: Paging
    var perPage: int
    var sortBy: Value
    var sortDirection: Option<int>
    var criteria: Criteria
    var cacheHit: bool
    var pageNo: int

    constructor(modelType: string, countOf: Criteria -> nat, findAll: (Criteria, FindOptions) -> seq<Value>,
                pageCountOf: Paging -> nat, digest: string -> string)
      ensures this.modelType == modelType && this.countOf == countOf && this.findAll == findAll
      ensures this.pageCountOf == pageCountOf && this.digest == digest
      ensures cacheLife == VInt(300) && cacheKey == [] && conditions == [] && paging == Paging(None, None, None)
      ensures perPage == 5 && sortBy == VNull && sortDirection == None && criteria == map[]
      ensures !cacheHit && pageNo == 0
    {
      this.modelType := modelType;
      this.countOf := countOf;
      this.findAll := findAll;
      this.pageCountOf := pageCountOf;
      this.digest := digest;
      cacheLife := VInt(300);
      cacheKey := [];
      conditions := [];
      paging := Paging(None, None, None);
      perPage := 5;
      sortBy := VNull;
      sortDirection := None;
      criteria := map[];
      cacheHit := false;
      pageNo := 0;
    }

    /** Every setting other than the conditions and the tokens is as before. */
    twostate predicate KeepsSettings()
      reads this
    {
      cacheLife == old(cacheLife) && paging == old(paging) && perPage == old(perPage) &&
      sortBy == old(sortBy) && sortDirection == old(sortDirection) && criteria == old(criteria) &&
      cacheHit == old(cacheHit) && pageNo == old(pageNo)
    }

    /** Records one condition: its leaf under its operator and its token at the end of the key. */
    method AddCondition(op: string, leaf: Leaf, token: string)
      modifies this
      ensures conditions == AddLeaf(old(conditions), op, leaf)
      ensures cacheKey == old(cacheKey) + [token]
      ensures KeepsSettings()
    {
      conditions := AddLeaf(conditions, op, leaf);
      cacheKey := cacheKey + [token];
    }

    method CtCondition(attribute: string, value: Value, op: string)
      modifies this
      ensures conditions == AddLeaf(old(conditions), op, RegexLeaf(attribute, Str(value)))
      ensures cacheKey == old(cacheKey) + [ValueToken("ctCondition", attribute, value)]
      ensures KeepsSettings()
    {
      AddCondition(op, RegexLeaf(attribute, Str(value)), ValueToken("ctCondition", attribute, value));
    }

    method BwCondition(attribute: string, value: Value, op: string)
      modifies this
      ensures conditions == AddLeaf(old(conditions), op, RegexLeaf(attribute, "^" + Str(value)))
      ensures cacheKey == old(cacheKey) + [ValueToken("bwCondition", attribute, value)]
      ensures KeepsSettings()
    {
      AddCondition(op, RegexLeaf(attribute, "^" + Str(value)), ValueToken("bwCondition", attribute, value));
    }

    method EwCondition(attribute: string, value: Value, op: string)
      modifies this
      ensures conditions == AddLeaf(old(conditions), op, RegexLeaf(attribute, Str(value) + "$"))
      ensures cacheKey == old(cacheKey) + [ValueToken("ewCondition", attribute, value)]
      ensures KeepsSettings()
    {
      AddCondition(op, RegexLeaf(attribute, Str(value) + "$"), ValueToken("ewCondition", attribute, value));
    }

    /** The token carries the regex object's string form, `/pattern/i`. */
    method RegexCondition(attribute: string, regex: Value, op: string)
      modifies this
      ensures conditions == AddLeaf(old(conditions), op, RegexLeaf(attribute, Str(regex)))
      ensures cacheKey == old(cacheKey) + ["regexCondition-" + attribute + "-" + RegexText(Str(regex), "i")]
      ensures KeepsSettings()
    {
      AddCondition(op, RegexLeaf(attribute, Str(regex)), "regexCondition-" + attribute + "-" + RegexText(Str(regex), "i"));
    }

    /** The six comparison conditions (`eq`, `ne`, `gt`, `gte`, `lt`, `lte`), which differ only in their operator and name. */
    method CompareCondition(name: string, queryOp: string, attribute: string, value: Value, op: string)
      modifies this
      ensures conditions == AddLeaf(old(conditions), op, CompareLeaf(attribute, queryOp, value))
      ensures cacheKey == old(cacheKey) + [ValueToken(name, attribute, value)]
      ensures KeepsSettings()
    {
      AddCondition(op, CompareLeaf(attribute, queryOp, value), ValueToken(name, attribute, value));
    }

    method EqCondition(attribute: string, value: Value, op: string)
      modifies this
      ensures conditions == AddLeaf(old(conditions), op, CompareLeaf(attribute, "$eq", value))
      ensures cacheKey == old(cacheKey) + [ValueToken("eqCondition", attribute, value)]
      ensures KeepsSettings()
    {
      CompareCondition("eqCondition", "$eq", attribute, value, op);
    }

    method NeCondition(attribute: string, value: Value, op: string)
      modifies this
      ensures conditions == AddLeaf(old(conditions), op, CompareLeaf(attribute, "$ne", value))
      ensures cacheKey == old(cacheKey) + [ValueToken("neCondition", attribute, value)]
      ensures KeepsSettings()
    {
      CompareCondition("neCondition", "$ne", attribute, value, op);
    }

    method GtCondition(attribute: string, value: Value, op: string)
      modifies this
      ensures conditions == AddLeaf(old(conditions), op, CompareLeaf(attribute, "$gt", value))
      ensures cacheKey == old(cacheKey) + [ValueToken("gtCondition", attribute, value)]
      ensures KeepsSettings()
    {
      CompareCondition("gtCondition", "$gt", attribute, value, op);
    }

    method GteCondition(attribute: string, value: Value, op: string)
      modifies this
      ensures conditions == AddLeaf(old(conditions), op, CompareLeaf(attribute, "$gte", value))
      ensures cacheKey == old(cacheKey) + [ValueToken("gteCondition", attribute, value)]
      ensures KeepsSettings()
    {
      CompareCondition("gteCondition", "$gte", attribute, value, op);
    }

    method LtCondition(attribute: string, value: Value, op: string)
      modifies this
      ensures conditions == AddLeaf(old(conditions), op, CompareLeaf(attribute, "$lt", value))
      ensures cacheKey == old(cacheKey) + [ValueToken("ltCondition", attribute, value)]
      ensures KeepsSettings()
    {
      CompareCondition("ltCondition", "$lt", attribute, value, op);
    }

    method LteCondition(attribute: string, value: Value, op: string)
      modifies this
      ensures conditions == AddLeaf(old(conditions), op, CompareLeaf(attribute, "$lte", value))
      ensures cacheKey == old(cacheKey) + [ValueToken("lteCondition", attribute, value)]
      ensures KeepsSettings()
    {
      CompareCondition("lteCondition", "$lte", attribute, value, op);
    }

    /**
     * Adds the range leaf as written, which files the high value under both
     * bounds (`BetweenAsWrittenSelectsNothing`); the intended leaf is
     * `BetweenLeaf` (`BetweenLeafMeans`).
     */
    method BetweenCondition(attribute: string, low: Value, high: Value, op: string)
      modifies this
      ensures conditions == AddLeaf(old(conditions), op, BetweenLeafAsWritten(attribute, low, high))
      ensures cacheKey == old(cacheKey) + [BetweenToken(attribute, low, high)]
      ensures KeepsSettings()
    {
      AddCondition(op, BetweenLeafAsWritten(attribute, low, high), BetweenToken(attribute, low, high));
    }

    /** The four array conditions (`in`, `notIn`, `arrayAll`, `arrayMatch`). */
    method ListCondition(name: string, queryOp: string, attribute: string, list: seq<Pair>, op: string)
      modifies this
      ensures conditions == AddLeaf(old(conditions), op, ListLeaf(attribute, queryOp, list))
      ensures cacheKey == old(cacheKey) + [ListToken(name, attribute, list)]
      ensures KeepsSettings()
    {
      AddCondition(op, ListLeaf(attribute, queryOp, list), ListToken(name, attribute, list));
    }

    method InCondition(attribute: string, list: seq<Pair>, op: string)
      modifies this
      ensures conditions == AddLeaf(old(conditions), op, ListLeaf(attribute, "$in", list))
      ensures cacheKey == old(cacheKey) + [ListToken("inCondition", attribute, list)]
      ensures KeepsSettings()
    {
      ListCondition("inCondition", "$in", attribute, list, op);
    }

    /** The `type` argument is accepted and ignored. */
    method NotInCondition(attribute: string, list: seq<Pair>, kind: Value, op: string)
      modifies this
      ensures conditions == AddLeaf(old(conditions), op, ListLeaf(attribute, "$nin", list))
      ensures cacheKey == old(cacheKey) + [ListToken("notInCondition", attribute, list)]
      ensures KeepsSettings()
    {
      ListCondition("notInCondition", "$nin", attribute, list, op);
    }

    method ArrayAllCondition(attribute: string, list: seq<Pair>, op: string)
      modifies this
      ensures conditions == AddLeaf(old(conditions), op, ListLeaf(attribute, "$all", list))
      ensures cacheKey == old(cacheKey) + [ListToken("arrayAllCondition", attribute, list)]
      ensures KeepsSettings()
    {
      ListCondition("arrayAllCondition", "$all", attribute, list, op);
    }

    method ArrayMatchCondition(attribute: string, list: seq<Pair>, op: string)
      modifies this
      ensures conditions == AddLeaf(old(conditions), op, ListLeaf(attribute, "$elemMatch", list))
      ensures cacheKey == old(cacheKey) + [ListToken("arrayMatchCondition", attribute, list)]
      ensures KeepsSettings()
    {
      ListCondition("arrayMatchCondition", "$elemMatch", attribute, list, op);
    }

    method IsNullCondition(attribute: string, op: string)
      modifies this
      ensures conditions == AddLeaf(old(conditions), op, Clause(attribute + " IS NULL"))
      ensures cacheKey == old(cacheKey) + ["isNullCondition-" + attribute]
      ensures KeepsSettings()
    {
      AddCondition(op, Clause(attribute + " IS NULL"), "isNullCondition-" + attribute);
    }

    method IsNotNullCondition(attribute: string, op: string)
      modifies this
      ensures conditions == AddLeaf(old(conditions), op, Clause(attribute + " IS NOT NULL"))
      ensures cacheKey == old(cacheKey) + ["isNotNullCondition-" + attribute]
      ensures KeepsSettings()
    {
      AddCondition(op, Clause(attribute + " IS NOT NULL"), "isNotNullCondition-" + attribute);
    }

    method OrderBy(order: Value)
      modifies this
      ensures cacheKey == old(cacheKey) + ["ORDERBY-" + Str(order)]
      ensures sortBy == order
      ensures conditions == old(conditions) && criteria == old(criteria) && perPage == old(perPage)
      ensures pageNo == old(pageNo) && sortDirection == old(sortDirection) && paging == old(paging)
      ensures cacheLife == old(cacheLife) && cacheHit == old(cacheHit)
    {
      cacheKey := cacheKey + ["ORDERBY-" + Str(order)];
      sortBy := order;
    }

    method SortDirection(direction: Value) returns (reply: DirectionReply)
      modifies this
      ensures DirectionSet(direction).None? ==> reply == CurrentDirection(old(sortDirection)) && sortDirection == old(sortDirection)
      ensures DirectionSet(direction).Some? ==> reply == Chained && sortDirection == DirectionSet(direction)
      ensures cacheKey == old(cacheKey) && conditions == old(conditions) && criteria == old(criteria)
      ensures perPage == old(perPage) && pageNo == old(pageNo) && sortBy == old(sortBy) && paging == old(paging)
      ensures cacheLife == old(cacheLife) && cacheHit == old(cacheHit)
    {
      if LooseEq(direction, VInt(0)) {
        reply := CurrentDirection(sortDirection);
      } else if LooseEq(direction, VInt(-1)) {
        sortDirection := Some(-1);
        reply := Chained;
      } else {
        sortDirection := Some(1);
        reply := Chained;
      }
    }

    /** `pageNoSet` and `perPageSet` cast to int and add no token. */
    method PageNoSet(value: Value)
      modifies this
      ensures pageNo == IntCast(value)
      ensures cacheKey == old(cacheKey) && conditions == old(conditions) && criteria == old(criteria)
      ensures perPage == old(perPage) && sortBy == old(sortBy) && sortDirection == old(sortDirection)
      ensures paging == old(paging) && cacheLife == old(cacheLife) && cacheHit == old(cacheHit)
    {
      pageNo := IntCast(value);
    }

    method PerPageSet(value: Value)
      modifies this
      ensures perPage == IntCast(value)
      ensures cacheKey == old(cacheKey) && conditions == old(conditions) && criteria == old(criteria)
      ensures pageNo == old(pageNo) && sortBy == old(sortBy) && sortDirection == old(sortDirection)
      ensures paging == old(paging) && cacheLife == old(cacheLife) && cacheHit == old(cacheHit)
    {
      perPage := IntCast(value);
    }

    /** The lifetime is stored without a cast. */
    method CacheLifeSet(seconds: Value)
      modifies this
      ensures cacheLife == seconds
      ensures cacheKey == old(cacheKey) && conditions == old(conditions) && criteria == old(criteria)
      ensures pageNo == old(pageNo) && perPage == old(perPage) && sortBy == old(sortBy)
      ensures sortDirection == old(sortDirection) && paging == old(paging) && cacheHit == old(cacheHit)
    {
      cacheLife := seconds;
    }

    /**
     * Appends every accumulated leaf to the criteria under its operator's
     * key, group by group in insertion order; the criteria are never
     * cleared, so each call appends the leaves again.
     */
    method GenerateCriteria()
      modifies this
      ensures criteria == Generate(old(criteria), conditions)
      ensures conditions == old(conditions) && cacheKey == old(cacheKey) && pageNo == old(pageNo)
      ensures perPage == old(perPage) && sortBy == old(sortBy) && sortDirection == old(sortDirection)
      ensures paging == old(paging) && cacheLife == old(cacheLife) && cacheHit == old(cacheHit)
    {
      var i := 0;
      while i < |conditions|
        invariant 0 <= i <= |conditions|
        invariant criteria == Generate(old(criteria), conditions[..i])
        invariant conditions == old(conditions) && cacheKey == old(cacheKey) && pageNo == old(pageNo)
        invariant perPage == old(perPage) && sortBy == old(sortBy) && sortDirection == old(sortDirection)
        invariant paging == old(paging) && cacheLife == old(cacheLife) && cacheHit == old(cacheHit)
      {
        var group := conditions[i];
        var key := OpKey(group.op);
        ghost var start := criteria;
        var j := 0;
        while j < |group.leaves|
          invariant 0 <= j <= |group.leaves|
          invariant criteria == AppendUnder(start, key, group.leaves[..j])
          invariant conditions == old(conditions) && cacheKey == old(cacheKey) && pageNo == old(pageNo)
          invariant perPage == old(perPage) && sortBy == old(sortBy) && sortDirection == old(sortDirection)
          invariant paging == old(paging) && cacheLife == old(cacheLife) && cacheHit == old(cacheHit)
        {
          assert group.leaves[..j + 1][..j] == group.leaves[..j];
          criteria := criteria[key := Under(criteria, key) + [group.leaves[j]]];
          j := j + 1;
        }
        assert group.leaves[..j] == group.leaves;
        assert conditions[..i + 1][..i] == conditions[..i];
        i := i + 1;
      }
      assert conditions[..i] == conditions;
    }

    /** Generates the criteria once more and counts the matching documents. */
    method RecordCount() returns (count: nat)
      modifies this
      ensures criteria == Generate(old(criteria), conditions)
      ensures count == countOf(criteria)
      ensures conditions == old(conditions) && cacheKey == old(cacheKey) && pageNo == old(pageNo)
      ensures perPage == old(perPage) && sortBy == old(sortBy) && sortDirection == old(sortDirection)
      ensures paging == old(paging) && cacheLife == old(cacheLife) && cacheHit == old(cacheHit)
    {
      GenerateCriteria();
      count := countOf(criteria);
    }

    /** Counts (which regenerates the criteria) and answers the pager's page count, which counting does not refresh. */
    method PageCount() returns (pages: nat)
      modifies this
      ensures criteria == Generate(old(criteria), conditions)
      ensures pages == pageCountOf(old(paging))
      ensures conditions == old(conditions) && cacheKey == old(cacheKey) && pageNo == old(pageNo)
      ensures perPage == old(perPage) && sortBy == old(sortBy) && sortDirection == old(sortDirection)
      ensures paging == old(paging) && cacheLife == old(cacheLife) && cacheHit == old(cacheHit)
    {
      var _ := RecordCount();
      pages := pageCountOf(paging);
    }

    /** The pager state for a page: the current page, a fresh count and the page size. */
    method PagingInfo(pageArg: Value) returns (info: Paging)
      modifies this
      ensures criteria == Generate(old(criteria), conditions)
      ensures info == paging
      ensures paging == Paging(Some(countOf(criteria)), Some(PageArg(pageArg, old(pageNo)) - 1), Some(old(perPage)))
      ensures conditions == old(conditions) && cacheKey == old(cacheKey) && pageNo == old(pageNo)
      ensures perPage == old(perPage) && sortBy == old(sortBy) && sortDirection == old(sortDirection)
      ensures cacheLife == old(cacheLife) && cacheHit == old(cacheHit)
    {
      var p := PageArg(pageArg, pageNo);
      paging := paging.(currentPage := Some(p - 1));
      GenerateCriteria();
      var count := countOf(criteria);
      paging := paging.(itemCount := Some(count));
      paging := paging.(pageSize := Some(perPage));
      info := paging;
    }

    /** The digest of the model type and the tokens accumulated so far. */
    function CacheKey(): string
      reads this
    {
      digest(KeySource(modelType, cacheKey))
    }

    function IsCacheHit(): bool
      reads this
    {
      cacheHit
    }

    /** `browse`'s preparation: the page's tokens, the criteria generated twice, and the pager. */
    method PreparePage(pageArg: Value) returns (p: int)
      modifies this
      ensures p == PageArg(pageArg, old(pageNo))
      ensures cacheKey == old(cacheKey) + PageTokens(p, old(perPage))
      ensures criteria == Generate(Generate(old(criteria), conditions), conditions)
      ensures paging == Paging(Some(countOf(criteria)), Some(p - 1), Some(old(perPage)))
      ensures conditions == old(conditions) && pageNo == old(pageNo) && perPage == old(perPage)
      ensures sortBy == old(sortBy) && sortDirection == old(sortDirection) && cacheLife == old(cacheLife)
      ensures cacheHit == old(cacheHit)
    {
      p := PageArg(pageArg, pageNo);
      cacheKey := cacheKey + PageTokens(p, perPage);
      GenerateCriteria();
      var count := RecordCount();
      paging := paging.(itemCount := Some(count));
      paging := paging.(currentPage := Some(p - 1));
      paging := paging.(pageSize := Some(perPage));
    }

    /** `browse`'s lookup: the cache under the current key, or the page query. */
    method FetchPage(cache: Cache, p: int, forceRefresh: bool) returns (records: seq<Value>)
      modifies this`cacheHit, cache
      ensures var r := Served(old(cache.entries), CacheKey(), forceRefresh,
                              findAll(criteria, PageOptions(p, perPage, sortBy, sortDirection)));
        records == r.records && cache.entries == r.entries && cacheHit == (r.hit || old(cacheHit))
    {
      var key := CacheKey();
      if !forceRefresh && key in cache.entries && cache.entries[key] != [] {
        records := cache.entries[key];
        cacheHit := true;
      } else {
        var options := PageOptions(p, perPage, sortBy, sortDirection);
        records := findAll(criteria, options);
        if records != [] {
          var _ := cache.Add(key, records);
        }
      }
    }

    /**
     * One page of records: the page's four tokens are added to the key, the
     * criteria are generated twice (once directly, once by the count), the
     * pager is set, and the page is served from the cache or the query.
     */
    method Browse(cache: Cache, pageArg: Value, forceRefresh: bool) returns (records: seq<Value>)
      modifies this, cache
      ensures cacheKey == old(cacheKey) + PageTokens(PageArg(pageArg, old(pageNo)), old(perPage))
      ensures criteria == Generate(Generate(old(criteria), conditions), conditions)
      ensures paging == Paging(Some(countOf(criteria)), Some(PageArg(pageArg, old(pageNo)) - 1), Some(old(perPage)))
      ensures conditions == old(conditions) && pageNo == old(pageNo) && perPage == old(perPage)
      ensures sortBy == old(sortBy) && sortDirection == old(sortDirection) && cacheLife == old(cacheLife)
      ensures var r := Served(old(cache.entries), CacheKey(), forceRefresh,
                              findAll(criteria, PageOptions(PageArg(pageArg, old(pageNo)), perPage, sortBy, sortDirection)));
        records == r.records && cache.entries == r.entries && cacheHit == (r.hit || old(cacheHit))
    {
      var p := PreparePage(pageArg);
      records := FetchPage(cache, p, forceRefresh);
    }

    /**
     * One step of `cachePages`: browses page x, so the tokens of pages 1 to
     * x are on the key, two more generations are in the criteria, and every
     * cached entry stays.
     */
    method CacheOnePage(cache: Cache, x: nat, ghost criteria0: Criteria, ghost key0: seq<string>,
                        ghost entries0: map<string, seq<Value>>)
      requires x >= 1
      requires criteria == GenerateTimes(criteria0, conditions, 2 * x - 1)
      requires cacheKey == key0 + TokensUpTo(x - 1, perPage)
      requires CacheGrows(entries0, cache.entries)
      modifies this, cache
      ensures criteria == GenerateTimes(criteria0, conditions, 2 * x + 1)
      ensures cacheKey == key0 + TokensUpTo(x, perPage)
      ensures paging.currentPage == Some(x - 1)
      ensures CacheGrows(entries0, cache.entries)
      ensures conditions == old(conditions) && pageNo == old(pageNo) && perPage == old(perPage)
      ensures sortBy == old(sortBy) && sortDirection == old(sortDirection) && cacheLife == old(cacheLife)
    {
      ghost var before := cache.entries;
      GenerateTimesStep(criteria0, conditions, 2 * x - 1);
      var _ := Browse(cache, VInt(x), false);
      ServedMeans(before, CacheKey(), false, findAll(criteria, PageOptions(x, perPage, sortBy, sortDirection)));
      CacheGrowsTransitive(entries0, before, cache.entries);
      assert (2 * x - 1) + 2 == 2 * x + 1;
      assert TokensUpTo(x, perPage) == TokensUpTo(x - 1, perPage) + PageTokens(x, perPage);
    }

    /**
     * Browses pages 1 to the pager's page count in ascending order. The page
     * count is read before any page is browsed, so it is the one the pager
     * held when the call began.
     */
    method CachePages(cache: Cache)
      modifies this, cache
      ensures cacheKey == old(cacheKey) + TokensUpTo(pageCountOf(old(paging)), old(perPage))
      ensures criteria == GenerateTimes(old(criteria), conditions, 1 + 2 * pageCountOf(old(paging)))
      ensures pageCountOf(old(paging)) > 0 ==> paging.currentPage == Some(pageCountOf(old(paging)) - 1)
      ensures pageCountOf(old(paging)) == 0 ==> paging == old(paging) && cache.entries == old(cache.entries)
      ensures CacheGrows(old(cache.entries), cache.entries)
      ensures conditions == old(conditions) && pageNo == old(pageNo) && perPage == old(perPage)
      ensures sortBy == old(sortBy) && sortDirection == old(sortDirection) && cacheLife == old(cacheLife)
    {
      var _ := RecordCount();
      var pageCount := pageCountOf(paging);
      assert criteria == GenerateTimes(old(criteria), conditions, 1);
      var x := 0;
      while x < pageCount
        invariant 0 <= x <= pageCount
        invariant cacheKey == old(cacheKey) + TokensUpTo(x, perPage)
        invariant criteria == GenerateTimes(old(criteria), conditions, 1 + 2 * x)
        invariant x > 0 ==> paging.currentPage == Some(x - 1)
        invariant x == 0 ==> paging == old(paging) && cache.entries == old(cache.entries)
        invariant CacheGrows(old(cache.entries), cache.entries)
        invariant conditions == old(conditions) && pageNo == old(pageNo) && perPage == old(perPage)
        invariant sortBy == old(sortBy) && sortDirection == old(sortDirection) && cacheLife == old(cacheLife)
      {
        x := x + 1;
        CacheOnePage(cache, x, old(criteria), old(cacheKey), old(cache.entries));
      }
    }
  }

  /** Making a browser fails when the model type names no class. */
  method NewBrowser(classes: set<string>, modelType: string, countOf: Criteria -> nat,
                    findAll: (Criteria, FindOptions) -> seq<Value>, pageCountOf: Paging -> nat,
                    digest: string -> string) returns (b: Option<Browser>)
    ensures b.None? <==> modelType !in classes
    ensures b.Some? ==> fresh(b.value) && b.value.modelType == modelType && b.value.cacheKey == []
                        && b.value.conditions == [] && b.value.perPage == 5 && b.value.pageNo == 0
  {
    if modelType !in classes {
      b := None;
    } else {
      var made := new Browser(modelType, countOf, findAll, pageCountOf, digest);
      b := Some(made);
    }
  }
}
