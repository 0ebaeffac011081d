/**
 * The XPath fragments `SearchUtils` renders: the fixed base paths, the
 * system-metadata and layered-metadata predicates, the word-query predicate
 * and the element selector for a qualified name. Everything here is string
 * assembly; nothing validates or escapes its inputs.
 */
module SearchPredicates {
  import opened Wrappers
  import opened JavaText

  /** Any content assembly (not its nodes). */
  const AnyContentAssembly := "/rs_ca_map/rs_ca"

  /** Any top-level element. */
  const AnyElement := "/element()"

  /** `javax.xml.namespace.QName`: the namespace URI is "" when absent; no part is ever null. */
  datatype QName = QName(namespaceURI: string, localPart: string, prefix: string)

  /** The qualified name of a non-XML managed object. */
  const NonXmlQName := QName("http://www.rsuitecms.com/rsuite/ns/metadata", "nonxml", "r")

  /** Any non-XML managed object: "/" + prefix + ":" + local part. */
  const AnyNonXmlObject := "/" + NonXmlQName.prefix + ":" + NonXmlQName.localPart

  /** Materialized-view path leading up to a system metadata name. */
  const SystemMetadataLeadOff := "./mv:metadata/mv:system/mv:"

  /** Materialized-view path leading up to a layered metadata name. */
  const LayeredMetadataLeadOff := "./mv:metadata/mv-lmd:layered/mv-lmd:"

  lemma AnyNonXmlObjectIsPrefixedName()
    ensures AnyNonXmlObject == "/r:nonxml"
  {
  }

  /** The system metadata the library knows how to query. */
  datatype SystemMetadata = CAType | DateCreated | DateModified | DisplayName | Id | MimeType | User

  /** The element local name of each system metadata field in the materialized view. */
  function LocalName(field: SystemMetadata): (r: string)
    ensures |r| > 0 && forall i :: 0 <= i < |r| ==> r[i] == '-' || 'a' <= r[i] <= 'z'
  {
    match field
    case CAType => "ca-type"
    case DateCreated => "date-created"
    case DateModified => "last-modified"
    case DisplayName => "display-name"
    case Id => "id"
    case MimeType => "mime-type"
    case User => "user"
  }

  /** No two fields share a local name, so a predicate's path names its field. */
  lemma LocalNamesDistinct(f: SystemMetadata, g: SystemMetadata)
    requires f != g
    ensures LocalName(f) != LocalName(g)
  {
    if {LocalName(f), LocalName(g)} == {"date-created", "display-name"} {
      assert "date-created"[1] != "display-name"[1];
    }
  }

  // ---------------------------------------------------------------------
  // The value list of a metadata constraint: 'v1', 'v2', ...
  // ---------------------------------------------------------------------

  /** One value as the constraint lists it: trimmed and wrapped in single quotes. */
  function Quoted(value: string): string {
    "'" + Trim(value) + "'"
  }

  /** The values, each quoted, joined by ", " in input order. */
  function QuotedList(values: seq<string>): string
    decreases |values|
  {
    if |values| == 0 then ""
    else if |values| == 1 then Quoted(values[0])
    else QuotedList(values[..|values| - 1]) + ", " + Quoted(values[|values| - 1])
  }

  /** Every value, trimmed, in order. */
  function TrimmedValues(values: seq<string>): (r: seq<string>)
    ensures |r| == |values|
    ensures forall i :: 0 <= i < |values| ==> r[i] == Trim(values[i])
  {
    if values == [] then [] else [Trim(values[0])] + TrimmedValues(values[1..])
  }

  /** No value contains a single quote once trimmed (nothing the renderer would have to escape). */
  predicate QuoteFree(values: seq<string>) {
    forall i :: 0 <= i < |values| ==> '\'' !in Trim(values[i])
  }

  /** The list read from the front: first value, separator, the rest. */
  lemma {:induction false} QuotedListCons(v: string, rest: seq<string>)
    requires rest != []
    ensures QuotedList([v] + rest) == Quoted(v) + ", " + QuotedList(rest)
    decreases |rest|
  {
    var vs := [v] + rest;
    if |rest| == 1 {
      assert vs[..|vs| - 1] == [v];
    } else {
      var init := rest[..|rest| - 1];
      assert vs[..|vs| - 1] == [v] + init;
      QuotedListCons(v, init);
      assert rest[..|rest| - 1] == init;
    }
  }

  /** Index of the first single quote in `s`, or |s| when there is none. */
  function QuoteIndex(s: string): (k: nat)
    ensures k <= |s|
    ensures forall j :: 0 <= j < k ==> s[j] != '\''
    ensures k < |s| ==> s[k] == '\''
    decreases |s|
  {
    if |s| == 0 || s[0] == '\'' then 0 else 1 + QuoteIndex(s[1..])
  }

  /** Reads back a non-empty list of quoted items separated by ", ". */
  function DecodeQuotedItems(s: string): Option<seq<string>>
    decreases |s|
  {
    if |s| == 0 || s[0] != '\'' then None
    else
      var body := s[1..];
      var k := QuoteIndex(body);
      if k == |body| then None
      else
        var after := body[k + 1..];
        if after == "" then Some([body[..k]])
        else if |after| >= 2 && after[..2] == ", " then
          match DecodeQuotedItems(after[2..])
          case Some(items) => Some([body[..k]] + items)
          case None => None
        else None
  }

  /** Reads back a value list; the empty text is the empty list. */
  function DecodeQuotedList(s: string): Option<seq<string>> {
    if s == "" then Some([]) else DecodeQuotedItems(s)
  }

  lemma {:induction false} QuoteIndexPastQuoteFree(t: string, tail: string)
    requires '\'' !in t
    ensures QuoteIndex(t + "'" + tail) == |t|
    decreases |t|
  {
    if t != [] {
      assert (t + "'" + tail)[1..] == t[1..] + "'" + tail;
      QuoteIndexPastQuoteFree(t[1..], tail);
    }
  }

  /** A last quote-free item decodes to itself. */
  lemma DecodeLastItem(t: string)
    requires '\'' !in t
    ensures DecodeQuotedItems("'" + t + "'") == Some([t])
  {
    var s := "'" + t + "'";
    assert s[1..] == t + "'" + "";
    QuoteIndexPastQuoteFree(t, "");
    assert s[1..][..|t|] == t;
    assert s[1..][|t| + 1..] == "";
  }

  /** A quote-free item followed by ", " is taken off the front of what follows. */
  lemma DecodeItemThenMore(t: string, more: string)
    requires '\'' !in t
    ensures DecodeQuotedItems("'" + t + "', " + more)
         == match DecodeQuotedItems(more)
            case Some(items) => Some([t] + items)
            case None => None
  {
    var s := "'" + t + "', " + more;
    var tail := ", " + more;
    assert s[1..] == t + "'" + tail;
    QuoteIndexPastQuoteFree(t, tail);
    assert s[1..][..|t|] == t;
    assert s[1..][|t| + 1..] == tail;
    assert tail[..2] == ", " && tail[2..] == more;
  }

  lemma DecodeSingleton(v: string)
    requires '\'' !in Trim(v)
    ensures DecodeQuotedItems(QuotedList([v])) == Some(TrimmedValues([v]))
  {
    DecodeLastItem(Trim(v));
    assert QuotedList([v]) == "'" + Trim(v) + "'";
    assert TrimmedValues([v]) == [Trim(v)];
  }

  lemma QuotedListConsText(v: string, rest: seq<string>)
    requires rest != []
    ensures QuotedList([v] + rest) == "'" + Trim(v) + "', " + QuotedList(rest)
  {
    QuotedListCons(v, rest);
    assert "'" + ", " == "', ";
  }

  lemma TrimmedValuesCons(v: string, rest: seq<string>)
    ensures TrimmedValues([v] + rest) == [Trim(v)] + TrimmedValues(rest)
  {
    assert ([v] + rest)[1..] == rest;
  }

  lemma DecodeCons(v: string, rest: seq<string>)
    requires '\'' !in Trim(v) && rest != []
    requires DecodeQuotedItems(QuotedList(rest)) == Some(TrimmedValues(rest))
    ensures DecodeQuotedItems(QuotedList([v] + rest)) == Some(TrimmedValues([v] + rest))
  {
    QuotedListConsText(v, rest);
    DecodeItemThenMore(Trim(v), QuotedList(rest));
    TrimmedValuesCons(v, rest);
  }

  /** Decoding a rendered value list gives back the trimmed values. */
  lemma {:induction false} DecodeQuotedItemsInverse(values: seq<string>)
    requires values != [] && QuoteFree(values)
    ensures DecodeQuotedItems(QuotedList(values)) == Some(TrimmedValues(values))
    decreases |values|
  {
    var v, rest := values[0], values[1..];
    assert values == [v] + rest;
    if rest == [] {
      DecodeSingleton(v);
    } else {
      assert QuoteFree(rest) by {
        forall i | 0 <= i < |rest| ensures '\'' !in Trim(rest[i]) {
          assert rest[i] == values[i + 1];
        }
      }
      DecodeQuotedItemsInverse(rest);
      DecodeCons(v, rest);
    }
  }

  /** A quote-free value list can be read back: rendering loses only the trimmed spaces. */
  lemma DecodeQuotedListInverse(values: seq<string>)
    requires QuoteFree(values)
    ensures DecodeQuotedList(QuotedList(values)) == Some(TrimmedValues(values))
  {
    if values != [] {
      DecodeQuotedItemsInverse(values);
      assert DecodeQuotedItems("") == None;
    }
  }

  /** Two quote-free value lists render alike only when they agree after trimming. */
  lemma QuotedListInjective(a: seq<string>, b: seq<string>)
    requires QuoteFree(a) && QuoteFree(b)
    requires QuotedList(a) == QuotedList(b)
    ensures TrimmedValues(a) == TrimmedValues(b)
  {
    DecodeQuotedListInverse(a);
    DecodeQuotedListInverse(b);
  }

  /** Without escaping, a value holding quotes can pose as several values. */
  lemma QuotedListAmbiguousWithQuotes()
    ensures QuotedList(["a', 'b"]) == QuotedList(["a", "b"])
  {
    assert Trim("a', 'b") == "a', 'b";
    assert Trim("a") == "a";
    assert Trim("b") == "b";
    assert ["a", "b"][..1] == ["a"];
  }

  // ---------------------------------------------------------------------
  // Metadata constraints and predicates
  // ---------------------------------------------------------------------

  /** One more value extends the list by a separator (none before the first) and that value. */
  lemma QuotedListStep(values: seq<string>, k: nat)
    requires k < |values|
    ensures QuotedList(values[..k + 1]) == QuotedList(values[..k]) + (if k == 0 then "" else ", ") + Quoted(values[k])
  {
    assert values[..k + 1][..k] == values[..k];
    assert values[..k + 1][k] == values[k];
    if k == 0 {
      assert QuotedList(values[..0]) == "";
    }
  }

  lemma Concat4(a: string, b: string, c: string, d: string)
    ensures a + b + c + d == a + (b + c + d)
  {
  }

  /** `getMetadataConstraint`: lead-off, name, "/text() ", operator, then the parenthesised value list. */
  function MetadataConstraint(leadOff: string, name: string, op: string, values: seq<string>): string {
    leadOff + name + "/text() " + op + " (" + QuotedList(values) + ")"
  }

  /**
   * `getMetadataConstraint` as written: a string builder and a loop over the
   * values with a `first` flag deciding whether a separator goes in front.
   */
  method GetMetadataConstraint(leadOff: string, name: string, op: string, values: seq<string>)
    returns (r: string)
    ensures r == MetadataConstraint(leadOff, name, op, values)
  {
    var buf := leadOff + name + "/text() " + op + " (";
    ghost var head := buf;
    assert values[..0] == [];
    var first := true;
    for k := 0 to |values|
      invariant first <==> k == 0
      invariant buf == head + QuotedList(values[..k])
    {
      ghost var done := QuotedList(values[..k]);
      ghost var sep := if k == 0 then "" else ", ";
      if first {
        first := false;
      } else {
        buf := buf + ", ";
      }
      assert buf == head + done + sep;
      var item := "'" + Trim(values[k]) + "'";
      buf := buf + item;
      QuotedListStep(values, k);
      Concat4(head, done, sep, item);
    }
    assert values[..|values|] == values;
    r := buf + ")";
  }

  /**
   * A constraint is its head, then the value list, then ")", and for
   * quote-free values the list reads back as the trimmed values in order.
   */
  lemma MetadataConstraintReadsBack(leadOff: string, name: string, op: string, values: seq<string>)
    requires QuoteFree(values)
    ensures var r := MetadataConstraint(leadOff, name, op, values);
            var head := leadOff + name + "/text() " + op + " (";
            |head| < |r| && r[..|head|] == head && r[|r| - 1] == ')'
            && DecodeQuotedList(r[|head|..|r| - 1]) == Some(TrimmedValues(values))
  {
    var r := MetadataConstraint(leadOff, name, op, values);
    var head := leadOff + name + "/text() " + op + " (";
    assert r == head + QuotedList(values) + ")";
    assert r[|head|..|r| - 1] == QuotedList(values);
    DecodeQuotedListInverse(values);
  }

  /** With no values the list is empty: "()". */
  lemma MetadataConstraintNoValues(leadOff: string, name: string, op: string)
    ensures MetadataConstraint(leadOff, name, op, []) == leadOff + name + "/text() " + op + " ()"
  {
  }

  /** The parts of `head + mid + tail` are where they were put. */
  lemma Framed(head: string, mid: string, tail: string)
    ensures var r := head + mid + tail;
            |head| + |tail| <= |r| && r[..|head|] == head
            && r[|head|..|r| - |tail|] == mid && r[|r| - |tail|..] == tail
  {
  }

  /** `getSystemMetadataXPathPredicate(field, op, value)`: one value, in brackets. */
  function SystemMetadataPredicate(field: SystemMetadata, op: string, value: string): (r: string)
    ensures 2 <= |r| && r[0] == '[' && r[|r| - 1] == ']'
  {
    "[" + MetadataConstraint(SystemMetadataLeadOff, LocalName(field), op, [value]) + "]"
  }

  /** `getSystemMetadataXPathPredicate(field, value)`: the operator defaults to "=". */
  function SystemMetadataEqualsPredicate(field: SystemMetadata, value: string): (r: string)
    ensures 2 <= |r| && r[0] == '[' && r[|r| - 1] == ']'
  {
    SystemMetadataPredicate(field, "=", value)
  }

  lemma SystemMetadataPredicateSplit(field: SystemMetadata, op: string, value: string)
    ensures SystemMetadataPredicate(field, op, value)
         == "[" + SystemMetadataLeadOff + LocalName(field) + "/text() " + op + " (" + QuotedList([value]) + ")]"
  {
    var inner := SystemMetadataLeadOff + LocalName(field) + "/text() " + op + " (";
    var list := QuotedList([value]);
    assert "[" + SystemMetadataLeadOff + LocalName(field) + "/text() " + op + " (" == "[" + inner;
    assert SystemMetadataPredicate(field, op, value) == "[" + (inner + list + ")") + "]";
  }

  /**
   * A system predicate tests the field's element with the given operator
   * against exactly one value, and that value reads back trimmed.
   */
  lemma SystemMetadataPredicateReadsBack(field: SystemMetadata, op: string, value: string)
    ensures var r := SystemMetadataPredicate(field, op, value);
            var head := "[" + SystemMetadataLeadOff + LocalName(field) + "/text() " + op + " (";
            |head| + 2 <= |r| && r[..|head|] == head && r[|r| - 2..] == ")]"
            && ('\'' !in Trim(value) ==> DecodeQuotedList(r[|head|..|r| - 2]) == Some([Trim(value)]))
  {
    var head := "[" + SystemMetadataLeadOff + LocalName(field) + "/text() " + op + " (";
    SystemMetadataPredicateSplit(field, op, value);
    Framed(head, QuotedList([value]), ")]");
    if '\'' !in Trim(value) {
      assert QuoteFree([value]) by {
        assert [value][0] == value;
      }
      DecodeQuotedListInverse([value]);
    }
  }

  /** The two-argument form tests with "=". */
  lemma SystemMetadataEqualsUsesEquality(field: SystemMetadata, value: string)
    ensures var head := "[" + SystemMetadataLeadOff + LocalName(field) + "/text() = (";
            var r := SystemMetadataEqualsPredicate(field, value);
            |head| <= |r| && r[..|head|] == head
  {
    SystemMetadataPredicateReadsBack(field, "=", value);
    var lead := "[" + SystemMetadataLeadOff + LocalName(field);
    assert lead + "/text() " + "=" + " (" == lead + "/text() = (";
  }

  /** `getLayeredMetadataConstraint`: always the equality test. */
  function LayeredMetadataConstraint(name: string, values: seq<string>): (r: string)
    ensures 1 <= |r| && r[|r| - 1] == ')'
  {
    MetadataConstraint(LayeredMetadataLeadOff, name, "=", values)
  }

  /** `getLayeredMetadataXPathPredicate`: the layered constraint in brackets. */
  function LayeredMetadataPredicate(name: string, values: seq<string>): (r: string)
    ensures 2 <= |r| && r[0] == '[' && r[|r| - 1] == ']'
  {
    "[" + LayeredMetadataConstraint(name, values) + "]"
  }

  /**
   * The layered predicate spelled out; the text between its "= (" and ")]"
   * reads back as the trimmed values in order when they are quote-free.
   */
  lemma LayeredMetadataPredicateText(name: string, values: seq<string>)
    ensures LayeredMetadataPredicate(name, values)
         == "[" + LayeredMetadataLeadOff + name + "/text() = (" + QuotedList(values) + ")]"
    ensures var r := LayeredMetadataPredicate(name, values);
            var head := "[" + LayeredMetadataLeadOff + name + "/text() = (";
            |head| + 2 <= |r| && r[..|head|] == head && r[|r| - 2..] == ")]"
            && (QuoteFree(values) ==> DecodeQuotedList(r[|head|..|r| - 2]) == Some(TrimmedValues(values)))
  {
    var lead := "[" + LayeredMetadataLeadOff + name;
    var list := QuotedList(values);
    assert LayeredMetadataPredicate(name, values) == lead + ("/text() " + "=" + " (") + list + ")]";
    assert "/text() " + "=" + " (" == "/text() = (";
    Framed(lead + "/text() = (", list, ")]");
    if QuoteFree(values) {
      DecodeQuotedListInverse(values);
    }
  }

  /** The options list of the word query: case-insensitive or the engine's default. */
  function WordQueryOptions(caseInsensitive: bool): string {
    if caseInsensitive then "('case-insensitive')" else "()"
  }

  /** `getLayeredMetadataWordQueryXPathPredicate`: a `cts:contains` test on a layered metadata element. */
  function LayeredMetadataWordQueryPredicate(name: string, value: string, caseInsensitive: bool): (r: string)
    ensures 2 <= |r| && r[0] == '[' && r[|r| - 1] == ']'
  {
    "[cts:contains(" + LayeredMetadataLeadOff + name + ", cts:word-query('" + value + "', "
    + WordQueryOptions(caseInsensitive) + "))]"
  }

  /**
   * The word query carries its value verbatim (untrimmed) right after its
   * opening quote, and the flag changes nothing but the options list.
   */
  lemma WordQueryKeepsValueVerbatim(name: string, value: string, caseInsensitive: bool)
    ensures var r := LayeredMetadataWordQueryPredicate(name, value, caseInsensitive);
            var head := "[cts:contains(" + LayeredMetadataLeadOff + name + ", cts:word-query('";
            |head| + |value| <= |r| && r[..|head|] == head && r[|head|..|head| + |value|] == value
            && r[|head| + |value|..] == "', " + WordQueryOptions(caseInsensitive) + "))]"
    ensures WordQueryOptions(caseInsensitive) == (if caseInsensitive then "('case-insensitive')" else "()")
  {
    var r := LayeredMetadataWordQueryPredicate(name, value, caseInsensitive);
    var head := "[cts:contains(" + LayeredMetadataLeadOff + name + ", cts:word-query('";
    assert r == head + value + ("', " + WordQueryOptions(caseInsensitive) + "))]");
  }

  /** Unlike the word query, the equality constraint trims each value: " x " is listed as 'x'. */
  lemma ConstraintTrimsValues()
    ensures Quoted(" x ") == "'x'"
    ensures QuotedList([" x ", "y"]) == "'x', 'y'"
  {
    assert TrimStart(" x ") == 1;
    assert TrimEnd(" x ", 1) == 2;
    assert Trim("y") == "y";
    assert [" x ", "y"][..1] == [" x "];
  }

  // ---------------------------------------------------------------------
  // Element selector
  // ---------------------------------------------------------------------

  /** The step after the leading slashes: a namespace test when the URI is not blank, else the bare local part. */
  function ElementStep(qname: QName): string {
    if IsBlank(Some(qname.namespaceURI)) then qname.localPart
    else "*:" + qname.localPart + "[namespace-uri() = '" + qname.namespaceURI + "']"
  }

  /** `getXPathExpression`: "//" when descendants may match, "/" otherwise, then the element step. */
  function XPathExpression(qname: QName, allowDescendants: bool): string {
    (if allowDescendants then "//" else "/") + ElementStep(qname)
  }

  /** `getXPathExpression` as written: conditional appends to a builder. */
  method GetXPathExpression(qname: QName, allowDescendants: bool) returns (r: string)
    ensures r == XPathExpression(qname, allowDescendants)
  {
    var query := "";
    if allowDescendants {
      query := query + "/";
    }
    query := query + "/";
    assert query == if allowDescendants then "//" else "/";
    ghost var slashes := query;
    var haveNamespaceURI := !IsBlank(Some(qname.namespaceURI));
    if haveNamespaceURI {
      query := query + "*:";
    }
    query := query + qname.localPart;
    if haveNamespaceURI {
      query := query + "[namespace-uri() = '" + qname.namespaceURI + "']";
      assert query == slashes + ("*:" + qname.localPart + "[namespace-uri() = '" + qname.namespaceURI + "']");
    }
    r := query;
  }

  /** The expression always begins with "/", and with "//" when descendants are allowed. */
  lemma XPathExpressionLeadingSlashes(qname: QName, allowDescendants: bool)
    ensures var r := XPathExpression(qname, allowDescendants);
            1 <= |r| && r[0] == '/'
            && (allowDescendants ==> |r| >= 2 && r[..2] == "//")
  {
  }

  /**
   * Conversely, a leading "//" means descendants are allowed, as long as the
   * local part does not itself begin with "/".
   */
  lemma XPathExpressionDoubleSlashOnlyForDescendants(qname: QName, allowDescendants: bool)
    requires qname.localPart == [] || qname.localPart[0] != '/'
    ensures var r := XPathExpression(qname, allowDescendants);
            |r| >= 2 && r[..2] == "//" ==> allowDescendants
  {
    var r := XPathExpression(qname, allowDescendants);
    var step := ElementStep(qname);
    if !allowDescendants && |r| >= 2 {
      assert r[1] == step[0];
    }
  }

  /** Nothing checks the local part: "/x" without a namespace yields "//x" even for direct children. */
  lemma XPathExpressionSlashInLocalPart()
    ensures XPathExpression(QName("", "/x", ""), false) == "//x"
  {
    assert IsBlank(Some(""));
  }

  /** The namespace test is there exactly when the namespace URI is not blank. */
  lemma XPathExpressionNamespace(qname: QName, allowDescendants: bool)
    ensures var slashes := if allowDescendants then "//" else "/";
            var r := XPathExpression(qname, allowDescendants);
            (IsBlank(Some(qname.namespaceURI)) ==> r == slashes + qname.localPart)
            && (!IsBlank(Some(qname.namespaceURI)) ==>
                  r == slashes + "*:" + qname.localPart + "[namespace-uri() = '" + qname.namespaceURI + "']")
  {
  }
}
