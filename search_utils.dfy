/**
 * The searches of `SearchUtils`: each assembles an XPath query from a base
 * path and predicates in a fixed order, hands it to the search service and
 * drains the 1-based result cursor into a list, failing once more results
 * than the caller's maximum have been read.
 *
 * The search service is a parameter `service`, the function from a query to
 * the items its cursor yields in order; `getId` is the managed objects' id
 * accessor. Sort orders are not modelled: the source never forwards them.
 */
module SearchUtils {
  import opened Wrappers
  import opened JavaText
  import opened NameValues
  import opened SearchPredicates

  /** The two `RSuiteException`s this code raises itself. */
  datatype SearchError =
    | ConfigurationError(message: string)
    | ThresholdExceeded(maxResultCount: int)

  const MissingCaTypeMessage := "CA type is empty, but is required by this search."

  // ---------------------------------------------------------------------
  // Draining the result cursor
  // ---------------------------------------------------------------------

  /** `getResults().getResult(i)`: positions are 1-based; `None` (Java's null) past the last item. */
  function GetResult<T>(cursor: seq<T>, i: int): (r: Option<T>)
    ensures r.Some? <==> 1 <= i <= |cursor|
    ensures r.Some? ==> r.value == cursor[i - 1]
  {
    if 1 <= i <= |cursor| then Some(cursor[i - 1]) else None
  }

  /** More items than a positive maximum allows. */
  predicate Exceeds(count: int, maxResultCount: int) {
    maxResultCount > 0 && count > maxResultCount
  }

  /**
   * What draining a cursor yields: all its items in cursor order, or, when a
   * positive maximum is exceeded, the threshold error and no partial list.
   */
  function Drain<T>(cursor: seq<T>, maxResultCount: int): (r: Result<seq<T>, SearchError>)
    ensures r.Success? <==> !Exceeds(|cursor|, maxResultCount)
    ensures r.Success? ==> r.value == cursor
    ensures r.Failure? ==> r.error == ThresholdExceeded(maxResultCount)
  {
    if Exceeds(|cursor|, maxResultCount) then Failure(ThresholdExceeded(maxResultCount))
    else Success(cursor)
  }

  /**
   * `searchForObjects`: read positions 1, 2, ... until the cursor gives null,
   * appending each item; right after appending item `i`, fail if `i` is over
   * a positive maximum. `lookups` counts the cursor reads: one past the last
   * item on success, `maxResultCount + 1` when the threshold trips.
   */
  method SearchForObjects<T>(service: string -> seq<T>, query: string, maxResultCount: int)
    returns (r: Result<seq<T>, SearchError>, ghost lookups: nat)
    ensures r == Drain(service(query), maxResultCount)
    ensures lookups == if r.Success? then |service(query)| + 1 else maxResultCount + 1
  {
    var cursor := service(query);
    var results: seq<T> := [];
    var i := 0;
    lookups := 0;
    while true
      invariant 0 <= i <= |cursor|
      invariant maxResultCount > 0 ==> i <= maxResultCount
      invariant results == cursor[..i]
      invariant lookups == i
      decreases |cursor| - i
    {
      i := i + 1;
      var item := GetResult(cursor, i);
      lookups := lookups + 1;
      if item.None? {
        break;
      }
      results := results + [item.value];
      if maxResultCount > 0 && i > maxResultCount {
        r := Failure(ThresholdExceeded(maxResultCount));
        return;
      }
    }
    assert results == cursor;
    r := Success(results);
  }

  /** `ids` is what `searchForObjectIds` makes of a drained result: the ids in the same order, or the same error. */
  ghost predicate ProjectsIds<T>(ids: Result<seq<string>, SearchError>, drained: Result<seq<T>, SearchError>,
                                 getId: T -> string)
  {
    match drained
    case Failure(e) => ids == Failure(e)
    case Success(objects) =>
      ids.Success? && |ids.value| == |objects|
      && forall k :: 0 <= k < |objects| ==> ids.value[k] == getId(objects[k])
  }

  /** `searchForObjectIds`: the ids of `searchForObjects`' result, one per object, in order. */
  method SearchForObjectIds<T>(service: string -> seq<T>, getId: T -> string, query: string, maxResultCount: int)
    returns (r: Result<seq<string>, SearchError>)
    ensures ProjectsIds(r, Drain(service(query), maxResultCount), getId)
  {
    var objects;
    ghost var lookups;
    objects, lookups := SearchForObjects(service, query, maxResultCount);
    if objects.Failure? {
      return Failure(objects.error);
    }
    var ids: seq<string> := [];
    for k := 0 to |objects.value|
      invariant |ids| == k
      invariant forall j :: 0 <= j < k ==> ids[j] == getId(objects.value[j])
    {
      ids := ids + [getId(objects.value[k])];
    }
    r := Success(ids);
  }

  // ---------------------------------------------------------------------
  // Query assembly
  // ---------------------------------------------------------------------

  /** The renderings of `items`, one after another, in order. */
  function Joined<C>(render: C -> string, items: seq<C>): string
    decreases |items|
  {
    if items == [] then "" else Joined(render, items[..|items| - 1]) + render(items[|items| - 1])
  }

  /** Joining distributes over concatenation of the items. */
  lemma {:induction false} JoinedAppend<C>(render: C -> string, a: seq<C>, b: seq<C>)
    ensures Joined(render, a + b) == Joined(render, a) + Joined(render, b)
    decreases |b|
  {
    if b == [] {
      assert a + b == a;
    } else {
      var init := b[..|b| - 1];
      assert (a + b)[..|a + b| - 1] == a + init;
      JoinedAppend(render, a, init);
    }
  }

  /** One criterion as a layered-metadata predicate (a null name renders as "null"). */
  function CriterionPredicate(c: NameValuesPair): string {
    LayeredMetadataPredicate(Text(c.name), c.values)
  }

  /** One predicate per criterion, in list order. */
  function CriteriaPredicates(criteria: seq<NameValuesPair>): string {
    Joined(CriterionPredicate, criteria)
  }

  /** Criteria render piecewise: the predicates of a concatenation are the concatenated predicates. */
  lemma CriteriaPredicatesAppend(a: seq<NameValuesPair>, b: seq<NameValuesPair>)
    ensures CriteriaPredicates(a + b) == CriteriaPredicates(a) + CriteriaPredicates(b)
  {
    JoinedAppend(CriterionPredicate, a, b);
  }

  /** A single criterion renders as its own predicate. */
  lemma CriteriaPredicatesSingle(c: NameValuesPair)
    ensures CriteriaPredicates([c]) == CriterionPredicate(c)
  {
    JoinedSingle(CriterionPredicate, c);
  }

  lemma JoinedSingle<C>(render: C -> string, c: C)
    ensures Joined(render, [c]) == render(c)
  {
    assert [c][..0] == [];
    assert Joined(render, [c]) == "" + render(c);
  }

  /** Criterion `k`'s predicate sits between those of the criteria before it and after it. */
  lemma CriterionInPlace(criteria: seq<NameValuesPair>, k: nat)
    requires k < |criteria|
    ensures CriteriaPredicates(criteria)
         == CriteriaPredicates(criteria[..k])
            + CriterionPredicate(criteria[k])
            + CriteriaPredicates(criteria[k + 1..])
  {
    assert criteria == criteria[..k] + [criteria[k]] + criteria[k + 1..];
    CriteriaPredicatesAppend(criteria[..k] + [criteria[k]], criteria[k + 1..]);
    CriteriaPredicatesAppend(criteria[..k], [criteria[k]]);
    assert [criteria[k]][..0] == [];
  }

  /** One more criterion appends one more predicate. */
  lemma CriteriaPredicatesStep(list: seq<NameValuesPair>, k: nat)
    requires k < |list|
    ensures CriteriaPredicates(list[..k + 1]) == CriteriaPredicates(list[..k]) + CriterionPredicate(list[k])
  {
    assert list[..k + 1][..k] == list[..k];
  }

  /** The loop the three searches share: append each criterion's predicate, if there is a list at all. */
  method AppendCriteria(query: string, criteria: Option<seq<NameValuesPair>>) returns (q: string)
    ensures q == query + CriteriaPredicates(criteria.GetOr([]))
  {
    q := query;
    if criteria.Some? {
      var list := criteria.value;
      for k := 0 to |list|
        invariant q == query + CriteriaPredicates(list[..k])
      {
        var p := CriterionPredicate(list[k]);
        CriteriaPredicatesStep(list, k);
        AppendAssociative(query, CriteriaPredicates(list[..k]), p);
        q := q + p;
      }
      assert list[..|list|] == list;
    }
  }

  /** The query `searchForManagedObjects` submits: the element selector, then the criteria. */
  function ManagedObjectsQuery(qname: QName, allowDescendants: bool, criteria: Option<seq<NameValuesPair>>): string {
    XPathExpression(qname, allowDescendants) + CriteriaPredicates(criteria.GetOr([]))
  }

  /** The id exclusion: "id ne" the trimmed id, only for a non-blank id. */
  function ExcludeIdPredicate(excludeId: Option<string>): string {
    if IsBlank(excludeId) then "" else SystemMetadataPredicate(Id, "ne", Trim(excludeId.value))
  }

  /** The CA type restriction: "ca-type =" the type, only for a non-blank type. */
  function CaTypePredicate(caType: Option<string>): string {
    if IsBlank(caType) then "" else SystemMetadataEqualsPredicate(CAType, caType.value)
  }

  /** The query `searchForContentAssemblies` submits: any CA, id exclusion, CA type, criteria. */
  function ContentAssembliesQuery(caType: Option<string>, criteria: Option<seq<NameValuesPair>>,
                                  excludeId: Option<string>): string
  {
    AnyContentAssembly + ExcludeIdPredicate(excludeId) + CaTypePredicate(caType)
    + CriteriaPredicates(criteria.GetOr([]))
  }

  /** The query `searchForContentAssemblyIds` submits once the type is known to be non-blank. */
  function ContentAssemblyIdsQuery(caType: string, criteria: Option<seq<NameValuesPair>>): string {
    AnyContentAssembly + SystemMetadataEqualsPredicate(CAType, caType) + CriteriaPredicates(criteria.GetOr([]))
  }

  /** `searchForManagedObjects` (list form). `query` is the query handed to the service. */
  method SearchForManagedObjects<T>(service: string -> seq<T>, qname: QName, allowDescendants: bool,
                                    criteria: Option<seq<NameValuesPair>>, maxResultCount: int)
    returns (r: Result<seq<T>, SearchError>, ghost query: string)
    ensures query == ManagedObjectsQuery(qname, allowDescendants, criteria)
    ensures r == Drain(service(ManagedObjectsQuery(qname, allowDescendants, criteria)), maxResultCount)
  {
    var q := GetXPathExpression(qname, allowDescendants);
    q := AppendCriteria(q, criteria);
    query := q;
    ghost var lookups;
    r, lookups := SearchForObjects(service, q, maxResultCount);
  }

  /** `searchForContentAssemblies` (fully parameterised form, sort order aside). */
  method SearchForContentAssemblies<T>(service: string -> seq<T>, caType: Option<string>,
                                       criteria: Option<seq<NameValuesPair>>, excludeId: Option<string>,
                                       maxResultCount: int)
    returns (r: Result<seq<T>, SearchError>, ghost query: string)
    ensures query == ContentAssembliesQuery(caType, criteria, excludeId)
    ensures r == Drain(service(ContentAssembliesQuery(caType, criteria, excludeId)), maxResultCount)
  {
    var q := AnyContentAssembly;
    if !IsBlank(excludeId) {
      q := q + SystemMetadataPredicate(Id, "ne", Trim(excludeId.value));
    }
    assert q == AnyContentAssembly + ExcludeIdPredicate(excludeId);
    if !IsBlank(caType) {
      q := q + SystemMetadataEqualsPredicate(CAType, caType.value);
    }
    assert q == AnyContentAssembly + ExcludeIdPredicate(excludeId) + CaTypePredicate(caType);
    q := AppendCriteria(q, criteria);
    query := q;
    ghost var lookups;
    r, lookups := SearchForObjects(service, q, maxResultCount);
  }

  /**
   * `searchForContentAssemblyIds` (list form): a blank CA type is a
   * configuration error raised before anything is submitted (`submitted` is
   * `None`); otherwise the ids of the matching CAs.
   */
  method SearchForContentAssemblyIds<T>(service: string -> seq<T>, getId: T -> string, caType: Option<string>,
                                        criteria: Option<seq<NameValuesPair>>, maxResultCount: int)
    returns (r: Result<seq<string>, SearchError>, ghost submitted: Option<string>)
    ensures IsBlank(caType) ==> r == Failure(ConfigurationError(MissingCaTypeMessage)) && submitted == None
    ensures !IsBlank(caType) ==> submitted == Some(ContentAssemblyIdsQuery(caType.value, criteria))
    ensures !IsBlank(caType) ==>
              ProjectsIds(r, Drain(service(ContentAssemblyIdsQuery(caType.value, criteria)), maxResultCount), getId)
  {
    var q := AnyContentAssembly;
    if IsBlank(caType) {
      r, submitted := Failure(ConfigurationError(MissingCaTypeMessage)), None;
      return;
    }
    q := q + SystemMetadataEqualsPredicate(CAType, caType.value);
    q := AppendCriteria(q, criteria);
    submitted := Some(q);
    r := SearchForObjectIds(service, getId, q, maxResultCount);
  }

  // ---------------------------------------------------------------------
  // Argument defaulting of the convenience overloads
  // ---------------------------------------------------------------------

  /** The name-plus-values overload of `searchForContentAssemblies`: criteria only for a non-null, non-empty values array. */
  function ValuesCriteria(lmdName: Option<string>, lmdValues: Option<seq<string>>): (r: Option<seq<NameValuesPair>>)
    ensures r.Some? <==> lmdValues.Some? && |lmdValues.value| > 0
    ensures r.Some? ==> r.value == GetStarterList(lmdName, lmdValues.value)
  {
    if lmdValues.Some? && |lmdValues.value| > 0 then Some(GetStarterList(lmdName, lmdValues.value)) else None
  }

  /** The name-plus-value overload of `searchForContentAssemblyIds`: a criterion only when neither is blank. */
  function NamedValueCriteria(lmdName: Option<string>, lmdValue: Option<string>): (r: Option<seq<NameValuesPair>>)
    ensures r.Some? <==> !IsBlank(lmdName) && !IsBlank(lmdValue)
    ensures r.Some? ==> r.value == GetStarterList(lmdName, [lmdValue.value])
  {
    if !IsBlank(lmdName) && !IsBlank(lmdValue) then Some(GetStarterList(lmdName, [lmdValue.value])) else None
  }

  /**
   * The single-value overload of `searchForContentAssemblies` as written: the
   * value is wrapped in a one-element array, so a criterion is built whatever
   * the name and value are.
   */
  function SingleValueCriteria(lmdName: Option<string>, lmdValue: string): (r: Option<seq<NameValuesPair>>)
    ensures r.Some? && |r.value| == 1
    ensures r.value[0].name == lmdName && r.value[0].values == [lmdValue]
  {
    ValuesCriteria(lmdName, Some([lmdValue]))
  }

  /**
   * Although name and value are documented as optional, a blank value with
   * no name still restricts the search: to CAs whose layered metadata
   * element "null" is empty.
   */
  lemma SingleValueOverloadRestrictsOnBlank()
    ensures ContentAssembliesQuery(None, SingleValueCriteria(None, ""), None)
         == AnyContentAssembly + "[" + LayeredMetadataLeadOff + "null/text() = ('')]"
  {
    SingleValueQuery(None, "");
    BlankValueNullNamePredicate();
  }

  /** With no type and no exclusion, the single-value overload's query is the base path and one layered predicate. */
  lemma SingleValueQuery(lmdName: Option<string>, lmdValue: string)
    ensures ContentAssembliesQuery(None, SingleValueCriteria(lmdName, lmdValue), None)
         == AnyContentAssembly + LayeredMetadataPredicate(Text(lmdName), [lmdValue])
  {
    var c := NameValuesPair(lmdName, [lmdValue]);
    var p := CriteriaPredicates([c]);
    assert SingleValueCriteria(lmdName, lmdValue) == Some([c]);
    assert ExcludeIdPredicate(None) == "" && CaTypePredicate(None) == "";
    assert ContentAssembliesQuery(None, Some([c]), None) == AnyContentAssembly + "" + "" + p;
    assert AnyContentAssembly + "" + "" == AnyContentAssembly;
    CriteriaPredicatesSingle(c);
  }

  lemma EmptyValueQuoted()
    ensures QuotedList([""]) == "''"
  {
    assert Trim("") == "";
  }

  lemma BlankValueNullNamePredicate()
    ensures LayeredMetadataPredicate("null", [""]) == "[" + LayeredMetadataLeadOff + "null/text() = ('')]"
  {
    var lead := "[" + LayeredMetadataLeadOff;
    var list := QuotedList([""]);
    EmptyValueQuoted();
    LayeredMetadataPredicateText("null", [""]);
    Concat4(lead + "null", "/text() = (", list, ")]");
    Concat4(lead, "null", "/text() = (", list + ")]");
    assert "null" + "/text() = (" + ("''" + ")]") == "null/text() = ('')]";
  }

  /**
   * The overload with its optional arguments honoured, as the ids family
   * does (`NamedValueCriteria`): a blank name or value leaves the query as if
   * no criterion had been given, and otherwise the criterion is the one the
   * overload builds today.
   */
  lemma CorrectedSingleValueOverload(caType: Option<string>, lmdName: Option<string>, lmdValue: Option<string>,
                                     excludeId: Option<string>)
    ensures IsBlank(lmdName) || IsBlank(lmdValue) ==>
              ContentAssembliesQuery(caType, NamedValueCriteria(lmdName, lmdValue), excludeId)
              == ContentAssembliesQuery(caType, None, excludeId)
    ensures !IsBlank(lmdName) && !IsBlank(lmdValue) ==>
              NamedValueCriteria(lmdName, lmdValue) == SingleValueCriteria(lmdName, lmdValue.value)
  {
  }

  // ---------------------------------------------------------------------
  // Properties of the assembled queries
  // ---------------------------------------------------------------------

  /** Without criteria (null or empty) the managed-object query is the bare element selector. */
  lemma ManagedObjectsQueryWithoutCriteria(qname: QName, allowDescendants: bool, criteria: Option<seq<NameValuesPair>>)
    requires criteria.None? || criteria.value == []
    ensures ManagedObjectsQuery(qname, allowDescendants, criteria) == XPathExpression(qname, allowDescendants)
  {
  }

  /** With nothing optional supplied the CA query is the bare base path. */
  lemma ContentAssembliesQueryBare(caType: Option<string>, criteria: Option<seq<NameValuesPair>>, excludeId: Option<string>)
    requires IsBlank(caType) && IsBlank(excludeId) && (criteria.None? || criteria.value == [])
    ensures ContentAssembliesQuery(caType, criteria, excludeId) == AnyContentAssembly
  {
  }

  /**
   * Order of the CA query's parts: the base path first, then the id
   * exclusion, then the type restriction, then criterion after criterion.
   */
  lemma ContentAssembliesQueryOrder(caType: Option<string>, criteria: seq<NameValuesPair>, excludeId: Option<string>,
                                    k: nat)
    requires k < |criteria|
    ensures var q := ContentAssembliesQuery(caType, Some(criteria), excludeId);
            var before := AnyContentAssembly + ExcludeIdPredicate(excludeId) + CaTypePredicate(caType)
                          + CriteriaPredicates(criteria[..k]);
            q == before + CriterionPredicate(criteria[k]) + CriteriaPredicates(criteria[k + 1..])
  {
    var head := AnyContentAssembly + ExcludeIdPredicate(excludeId) + CaTypePredicate(caType);
    var p1, own, p2 := CriteriaPredicates(criteria[..k]), CriterionPredicate(criteria[k]), CriteriaPredicates(criteria[k + 1..]);
    CriterionInPlace(criteria, k);
    assert ContentAssembliesQuery(caType, Some(criteria), excludeId) == head + (p1 + own + p2);
    AppendAssociative(head, p1 + own, p2);
    AppendAssociative(head, p1, own);
  }

  lemma AppendAssociative(a: string, b: string, c: string)
    ensures a + (b + c) == a + b + c
  {
  }

  /** Each optional part of the CA query is there exactly when its argument is not blank, and then starts a predicate. */
  lemma OptionalPartsPresence(caType: Option<string>, excludeId: Option<string>)
    ensures ExcludeIdPredicate(excludeId) != "" <==> !IsBlank(excludeId)
    ensures CaTypePredicate(caType) != "" <==> !IsBlank(caType)
    ensures !IsBlank(excludeId) ==> ExcludeIdPredicate(excludeId)[0] == '['
    ensures !IsBlank(caType) ==> CaTypePredicate(caType)[0] == '['
  {
  }

  /** For a non-blank type, the ids search submits the same query as the CA search without exclusion. */
  lemma IdsQueryIsContentAssembliesQuery(caType: string, criteria: Option<seq<NameValuesPair>>)
    requires !IsBlank(Some(caType))
    ensures ContentAssemblyIdsQuery(caType, criteria) == ContentAssembliesQuery(Some(caType), criteria, None)
  {
    assert ExcludeIdPredicate(None) == "";
    assert AnyContentAssembly + "" == AnyContentAssembly;
  }

  /**
   * A non-blank id can still trim to nothing (a control character is not
   * whitespace to `isBlank` but is cut by `trim`): the exclusion then
   * compares against ''.
   */
  lemma ExcludeIdOfControlCharacter()
    ensures ExcludeIdPredicate(Some([1 as char])) == SystemMetadataPredicate(Id, "ne", "")
  {
    assert !IsJavaWhitespace([1 as char][0]);
    assert Trim([1 as char]) == "";
  }

  /**
   * The overload taking a values array builds a criterion even for a null
   * name, whose predicate then tests an element called "null".
   */
  lemma NullNameRendersAsNull(values: seq<string>)
    requires values != []
    ensures var criteria := ValuesCriteria(None, Some(values));
            criteria.Some? && CriteriaPredicates(criteria.value) == LayeredMetadataPredicate("null", values)
  {
    var criteria := ValuesCriteria(None, Some(values));
    CriteriaPredicatesSingle(NameValuesPair(None, values));
  }

  /**
   * A CA search for type "article" excluding id "42" with the criterion
   * status = ["published"]: base path, exclusion, type, criterion.
   */
  lemma ArticleSearchQuery()
    ensures ContentAssembliesQuery(Some("article"), Some([NameValuesPair(Some("status"), ["published"])]), Some("42"))
         == AnyContentAssembly
            + SystemMetadataPredicate(Id, "ne", "42")
            + SystemMetadataPredicate(CAType, "=", "article")
            + LayeredMetadataPredicate("status", ["published"])
  {
    var c := NameValuesPair(Some("status"), ["published"]);
    assert !IsJavaWhitespace("42"[0]);
    assert !IsJavaWhitespace("article"[0]);
    TrimKeepsTrimmed("42");
    assert ExcludeIdPredicate(Some("42")) == SystemMetadataPredicate(Id, "ne", "42");
    assert CaTypePredicate(Some("article")) == SystemMetadataPredicate(CAType, "=", "article");
    CriteriaPredicatesSingle(c);
    assert CriteriaPredicates([c]) == LayeredMetadataPredicate("status", ["published"]);
  }
}
