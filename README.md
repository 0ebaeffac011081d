# RSuite search utilities in Dafny

A model of the query-building and result-draining core of the RSuite search
utility library (`SearchUtils` and `NameValuesPair`). The library builds
XPath query strings for RSuite's search service from metadata criteria. It
submits them and drains the service's 1-based result cursor into a list. It
fails when more results arrive than the caller's positive maximum allows.

Modules, one per concern:

- `Wrappers`: `Option` (Java's nullable references) and `Result` (a value or the exception thrown).
- `JavaText`: the Java behaviour the code relies on. This is `String.trim()` (strips characters up to
  U+0020), `StringUtils.isBlank` (null, empty or all `Character.isWhitespace`), and
  `StringBuilder.append` of a null string (appends `null`).
- `NameValues`: the immutable `NameValuesPair` as a datatype, and `getStarterList`.
- `SearchPredicates`: the constants, the `SystemMetadata` enumeration, the metadata constraint and its
  bracketed system, layered and word-query predicates, and the element selector for a qualified name.
  The value list of a constraint comes with a decoder. Reading back a rendered list of quote-free values
  gives the trimmed values in order.
- `SearchUtils`: query assembly for the managed-object, content-assembly (CA) and CA-id searches, the
  draining loop of `searchForObjects`, and the id projection of `searchForObjectIds`.

Where the Java code builds a string or a list step by step, the model has a method:

- `getMetadataConstraint`, a loop with a `first` flag, proved equal to the function `MetadataConstraint`;
- `getXPathExpression`, a sequence of conditional appends with no loop, proved equal to the function
  `XPathExpression`;
- the criteria loop shared by the three searches, proved equal to the function `CriteriaPredicates`
  applied after the query so far;
- the cursor loop of `searchForObjects`, proved equal to the function `Drain`;
- the id loop of `searchForObjectIds`, proved to satisfy the predicate `ProjectsIds`: the same error as
  `Drain`, or one id per drained object in the same order.

The one-expression predicate builders are functions.

The search service is a parameter `service: string -> seq<T>`: the items its cursor yields for a query,
in order. Looking up a position past the end gives `None`, standing for Java's `null`. The id accessor
is a parameter `getId: T -> string`.

Details of the rendered text and of the submission, as the code has them:

- the metadata paths carry the `mv:`/`mv-lmd:` prefixes and a `/text()` step;
- the values are parenthesised;
- a namespaced element is selected as `*:local[namespace-uri() = 'ns']`;
- the CA base path is `/rs_ca_map/rs_ca`;
- an empty values list renders as `()`;
- where a form takes a sort order, it is never handed to the service (line 657 passes `null`).

## Model

| member | source | states |
|---|---|---|
| JavaText.Text | src/main/java/com/rsicms/rsuite/utils/search/SearchUtils.java:308 | appending a null name yields the text `null`, a non-null one yields itself |
| JavaText.Trim | src/main/java/com/rsicms/rsuite/utils/search/SearchUtils.java:165 | `trim` returns a slice of its input that neither starts nor ends with a character at or below U+0020; everything cut off is at or below U+0020 |
| JavaText.TrimIdempotent | src/main/java/com/rsicms/rsuite/utils/search/SearchUtils.java:423 | trimming twice (the excluded id at line 423, again at line 165) equals trimming once |
| JavaText.TrimEmptyIff | src/main/java/com/rsicms/rsuite/utils/search/SearchUtils.java:165 | a value trims to empty exactly when all its characters are at or below U+0020 |
| JavaText.BlankIffTrimsEmpty | src/main/java/com/rsicms/rsuite/utils/search/SearchUtils.java:422-423 | when the characters at or below U+0020 are exactly the whitespace ones, blank and trims-to-empty agree |
| JavaText.BlankAndTrimDisagree | src/main/java/com/rsicms/rsuite/utils/search/SearchUtils.java:422-423 | otherwise they differ both ways: U+0000 is not blank yet trims to empty; U+3000 is blank yet survives trim |
| JavaText.TrimKeepsTrimmed | src/main/java/com/rsicms/rsuite/utils/search/SearchUtils.java:165 | `trim` leaves text that already begins and ends above U+0020 unchanged |
| JavaText.BlankConcat | src/main/java/com/rsicms/rsuite/utils/search/SearchUtils.java:422 | `isBlank`: null and the empty string are blank, and a concatenation is blank exactly when both parts are |
| JavaText.WhitespaceSet | src/main/java/com/rsicms/rsuite/utils/search/SearchUtils.java:215 | `Character.isWhitespace` (Java 9 on): space, tab, line feed, U+2003 and U+3000 are whitespace; U+00A0, U+2007, U+202F, U+180E, `x` and U+0000 are not |
| NameValues.GettersReturnConstructorArguments | src/main/java/com/rsicms/rsuite/utils/search/NameValuesPair.java:14-25 | `getName` and `getValues` return exactly the constructor's arguments, values in order and untrimmed |
| NameValues.GetStarterList | src/main/java/com/rsicms/rsuite/utils/search/NameValuesPair.java:36-40 | the starter list has exactly one element, carrying the given name and values |
| SearchPredicates.AnyNonXmlObjectIsPrefixedName | src/main/java/com/rsicms/rsuite/utils/search/SearchUtils.java:53-60 | the non-XML path is `/` + prefix + `:` + local part, i.e. `/r:nonxml` |
| SearchPredicates.LocalName | src/main/java/com/rsicms/rsuite/utils/search/SearchUtils.java:75-88 | each field's local name is non-empty and made of lower-case letters and hyphens |
| SearchPredicates.LocalNamesDistinct | src/main/java/com/rsicms/rsuite/utils/search/SearchUtils.java:75-88 | distinct system metadata fields have distinct local names |
| SearchPredicates.QuotedListCons | src/main/java/com/rsicms/rsuite/utils/search/SearchUtils.java:159-166 | the value list is the first quoted value, `, `, then the list of the rest |
| SearchPredicates.DecodeQuotedListInverse | src/main/java/com/rsicms/rsuite/utils/search/SearchUtils.java:159-166 | a rendered list of quote-free values reads back as the trimmed values, same count and order |
| SearchPredicates.QuotedListInjective | src/main/java/com/rsicms/rsuite/utils/search/SearchUtils.java:159-166 | two quote-free value lists render alike only if they agree after trimming |
| SearchPredicates.QuotedListAmbiguousWithQuotes | src/main/java/com/rsicms/rsuite/utils/search/SearchUtils.java:165 | values are not escaped: `a', 'b` as one value renders exactly like the two values `a` and `b` |
| SearchPredicates.GetMetadataConstraint | src/main/java/com/rsicms/rsuite/utils/search/SearchUtils.java:154-169 | the builder loop with its `first` flag yields lead-off, name, `/text() `, operator, ` (`, the values trimmed, single-quoted and joined by `, ` in input order, then `)` |
| SearchPredicates.MetadataConstraintReadsBack | src/main/java/com/rsicms/rsuite/utils/search/SearchUtils.java:154-169 | a constraint starts with its head, ends with `)`, and the text between reads back as the trimmed values |
| SearchPredicates.MetadataConstraintNoValues | src/main/java/com/rsicms/rsuite/utils/search/SearchUtils.java:156-168 | an empty values array yields an empty list `()` |
| SearchPredicates.SystemMetadataPredicate | src/main/java/com/rsicms/rsuite/utils/search/SearchUtils.java:111-115 | a system predicate is bracketed: it starts with `[` and ends with `]` |
| SearchPredicates.SystemMetadataPredicateReadsBack | src/main/java/com/rsicms/rsuite/utils/search/SearchUtils.java:111-115 | it is `[`, the system lead-off, the field's local name, `/text() `, the operator and ` (`, then one value, then `)]`; that value reads back as the trimmed value when it holds no quote |
| SearchPredicates.SystemMetadataEqualsPredicate | src/main/java/com/rsicms/rsuite/utils/search/SearchUtils.java:98-101 | the two-argument form is bracketed too |
| SearchPredicates.SystemMetadataEqualsUsesEquality | src/main/java/com/rsicms/rsuite/utils/search/SearchUtils.java:98-101 | the two-argument form tests with `=`: it begins `[`, lead-off, local name, `/text() = (` |
| SearchPredicates.LayeredMetadataConstraint | src/main/java/com/rsicms/rsuite/utils/search/SearchUtils.java:140-143 | a layered constraint ends with `)` |
| SearchPredicates.LayeredMetadataPredicate | src/main/java/com/rsicms/rsuite/utils/search/SearchUtils.java:126-129 | a layered predicate is bracketed: it starts with `[` and ends with `]` |
| SearchPredicates.LayeredMetadataPredicateText | src/main/java/com/rsicms/rsuite/utils/search/SearchUtils.java:126-143 | a layered predicate is `[`, the layered lead-off, the name, `/text() = (`, the value list, `)]`, so the operator is always `=`; for quote-free values the text between `= (` and `)]` reads back as the trimmed values in order |
| SearchPredicates.ConstraintTrimsValues | src/main/java/com/rsicms/rsuite/utils/search/SearchUtils.java:165 | constraint values are trimmed: ` x ` is listed as `'x'` |
| SearchPredicates.LayeredMetadataWordQueryPredicate | src/main/java/com/rsicms/rsuite/utils/search/SearchUtils.java:186-197 | a word-query predicate is bracketed: it starts with `[` and ends with `]` |
| SearchPredicates.WordQueryKeepsValueVerbatim | src/main/java/com/rsicms/rsuite/utils/search/SearchUtils.java:186-197 | the word query holds the value untrimmed right after `cts:word-query('`; its options are `('case-insensitive')` when the flag is set and `()` otherwise |
| SearchPredicates.GetXPathExpression | src/main/java/com/rsicms/rsuite/utils/search/SearchUtils.java:210-222 | the conditional appends yield the slashes followed by the element step |
| SearchPredicates.XPathExpressionLeadingSlashes | src/main/java/com/rsicms/rsuite/utils/search/SearchUtils.java:210-214 | the selector always starts with `/`, and with `//` when descendants are allowed |
| SearchPredicates.XPathExpressionDoubleSlashOnlyForDescendants | src/main/java/com/rsicms/rsuite/utils/search/SearchUtils.java:210-214 | conversely, a leading `//` means descendants are allowed, provided the local part does not itself begin with `/` |
| SearchPredicates.XPathExpressionSlashInLocalPart | src/main/java/com/rsicms/rsuite/utils/search/SearchUtils.java:210-221 | the local part is not checked: local part `/x` with a blank namespace and no descendants gives `//x` |
| SearchPredicates.XPathExpressionNamespace | src/main/java/com/rsicms/rsuite/utils/search/SearchUtils.java:215-221 | a non-blank namespace gives `*:` + local part + `[namespace-uri() = 'ns']`; a blank one gives the bare local part |
| SearchUtils.GetResult | src/main/java/com/rsicms/rsuite/utils/search/SearchUtils.java:661 | the cursor is read at 1-based positions and gives null exactly past its last item |
| SearchUtils.Drain | src/main/java/com/rsicms/rsuite/utils/search/SearchUtils.java:660-683 | draining succeeds exactly when the maximum is not positive or not exceeded, with all items in cursor order; otherwise it fails with the threshold error and no list |
| SearchUtils.SearchForObjects | src/main/java/com/rsicms/rsuite/utils/search/SearchUtils.java:648-684 | the loop returns what draining the service's cursor for the query yields; it reads one position past the last item on success and exactly `maxResultCount + 1` items before failing |
| SearchUtils.SearchForObjectIds | src/main/java/com/rsicms/rsuite/utils/search/SearchUtils.java:595-606 | the ids of the drained objects, same length and order, or the same error |
| SearchUtils.CriteriaPredicatesAppend | src/main/java/com/rsicms/rsuite/utils/search/SearchUtils.java:432-436 | the predicates of concatenated criteria lists are the concatenation of their predicates |
| SearchUtils.CriterionInPlace | src/main/java/com/rsicms/rsuite/utils/search/SearchUtils.java:433-435 | criterion k's predicate follows those of the criteria before it and precedes those after it |
| SearchUtils.AppendCriteria | src/main/java/com/rsicms/rsuite/utils/search/SearchUtils.java:546-550 | the shared loop appends one layered predicate per criterion in list order, and nothing for a null list |
| SearchUtils.SearchForManagedObjects | src/main/java/com/rsicms/rsuite/utils/search/SearchUtils.java:300-313 | submits the element selector followed by the criteria predicates, and returns the drained result for that query |
| SearchUtils.SearchForContentAssemblies | src/main/java/com/rsicms/rsuite/utils/search/SearchUtils.java:416-439 | submits the CA path, the `id ne` predicate on the trimmed excluded id if it is not blank, the `ca-type =` predicate if the type is not blank, then the criteria; returns the drained result |
| SearchUtils.SearchForContentAssemblyIds | src/main/java/com/rsicms/rsuite/utils/search/SearchUtils.java:536-553 | a blank CA type is a configuration error and nothing is submitted; otherwise submits the CA path, the type predicate and the criteria, and returns the ids |
| SearchUtils.ValuesCriteria | src/main/java/com/rsicms/rsuite/utils/search/SearchUtils.java:374-378 | a criteria list exists exactly when the values array is non-null and non-empty, and is then the starter list |
| SearchUtils.SingleValueCriteria | src/main/java/com/rsicms/rsuite/utils/search/SearchUtils.java:349-354 | the single-value overload always builds exactly one criterion, with the given name and the value as a one-element list, whatever name and value it is given |
| SearchUtils.SingleValueQuery | src/main/java/com/rsicms/rsuite/utils/search/SearchUtils.java:349-354 | with no type and no exclusion, that overload's query is the CA path and one layered predicate on the name (`null` when absent) and the value |
| SearchUtils.SingleValueOverloadRestrictsOnBlank | src/main/java/com/rsicms/rsuite/utils/search/SearchUtils.java:349-354 | with no name and a blank value the query still carries the predicate `[./mv:metadata/mv-lmd:layered/mv-lmd:null/text() = ('')]` |
| SearchUtils.CorrectedSingleValueOverload | src/main/java/com/rsicms/rsuite/utils/search/SearchUtils.java:349-354 | honouring the optional arguments as line 512 does: a blank name or value gives the query with no criteria, and otherwise the same criterion as today |
| SearchUtils.NamedValueCriteria | src/main/java/com/rsicms/rsuite/utils/search/SearchUtils.java:511-514 | a criteria list exists exactly when neither name nor value is blank, and is then the one-value starter list |
| SearchUtils.ManagedObjectsQueryWithoutCriteria | src/main/java/com/rsicms/rsuite/utils/search/SearchUtils.java:303-310 | without criteria (null or empty) the managed-object query is the bare element selector |
| SearchUtils.ContentAssembliesQueryBare | src/main/java/com/rsicms/rsuite/utils/search/SearchUtils.java:419-436 | with a blank type, a blank excluded id and no criteria the query is `/rs_ca_map/rs_ca` alone |
| SearchUtils.ContentAssembliesQueryOrder | src/main/java/com/rsicms/rsuite/utils/search/SearchUtils.java:419-436 | CA query order: base path, id exclusion, type, then each criterion's predicate in its list position |
| SearchUtils.OptionalPartsPresence | src/main/java/com/rsicms/rsuite/utils/search/SearchUtils.java:421-429 | the id and type predicates are present exactly when their argument is not blank, and each then opens with `[` |
| SearchUtils.IdsQueryIsContentAssembliesQuery | src/main/java/com/rsicms/rsuite/utils/search/SearchUtils.java:538-550 | for a non-blank type the ids search submits the same query as the CA search with no exclusion |
| SearchUtils.ExcludeIdOfControlCharacter | src/main/java/com/rsicms/rsuite/utils/search/SearchUtils.java:422-423 | a non-blank excluded id that trims to nothing still adds a predicate comparing against `''` |
| SearchUtils.NullNameRendersAsNull | src/main/java/com/rsicms/rsuite/utils/search/SearchUtils.java:376-377 | a values array without a name still yields a criterion, whose predicate tests an element named `null` |
| SearchUtils.ArticleSearchQuery | src/main/java/com/rsicms/rsuite/utils/search/SearchUtils.java:419-438 | type `article`, excluded id `42`, `status = [published]` give the base path, the id predicate, the type predicate and the status predicate, in that order |

## Left out

- Logging and timing are not modelled: the submission message, the `Date` arithmetic, the progress line every 600 results and the `finally` summary only log.
- The RSuite search service is a pure function parameter, so failures it raises (`RSuiteException` from `constructSearch` or the cursor) are not modelled.
- `User`, `Search`, `ContentDisplayObject` and `ManagedObject` are not modelled; an item stands for `getManagedObject()`'s result.
- Sort orders are not modelled. The forms that take one (lines 394, 416, 595 and 648) never pass it on: `constructSearch` is called with `null` at line 657. Other forms take none: `searchForManagedObjects` (243, 300), all `searchForContentAssemblyIds` forms (457, 509, 536), and the four-argument `searchForObjects` (626) and `searchForObjectIds` (572).
- The instance `i*` wrappers and the thin overloads are not modelled as methods. These are the single-criterion form of `searchForManagedObjects`, the sort-order-only and six-argument forms of `searchForContentAssemblies`, and the four-argument forms of `searchForObjects`, `searchForObjectIds` and `searchForContentAssemblyIds`. Their defaulting is modelled where it changes the query: lines 374-378 (`ValuesCriteria`), 349-354 (`SingleValueCriteria`, which does not only supply defaults; see Findings) and 511-514 (`NamedValueCriteria`).
- `SearchUtilsMessageProperties.java` is not part of this model: it loads a properties file.
- A null values array or a null value inside one is not modelled: values are a `seq<string>`. In Java it throws `NullPointerException` in the loop or in `trim` (line 165). This includes a null value given to the single-value overload, which wraps it at line 352.
- A null `QName` is not modelled: `QName` is a datatype. Java throws `NullPointerException` at line 215.
- A null element of a criteria list is not modelled: criteria are a `seq<NameValuesPair>`. Java throws `NullPointerException` at lines 308, 434 and 548.
- Null names are modelled only in `NameValuesPair`, where they can reach the output. Other strings that are appended unchecked (operator, word-query name and value, lead-off) are modelled as non-null.
- Java's 32-bit `int` counter is not modelled: `++i` would wrap only after 2^31 results.
- Characters are Unicode scalar values rather than UTF-16 code units. Every character that `trim` or `isBlank` treats specially is in the Basic Multilingual Plane, so both behave the same.
- XPath validity, quote escaping and evaluation of the generated query are not modelled; the code does none of them.

## Findings

| source | as written | input that shows it | evidently intended | confidence | as-written member | corrected member |
|---|---|---|---|---|---|---|
| src/main/java/com/rsicms/rsuite/utils/search/SearchUtils.java:349-354 | the single-value overload wraps `lmdValue` in a one-element array, so lines 376-377 always build a criterion although name and value are documented as optional (lines 340-341) | no name, value `""`: the query gains `[./mv:metadata/mv-lmd:layered/mv-lmd:null/text() = ('')]` | a blank name or value adds no criterion, as the ids family checks at line 512 | medium, not executed | SearchUtils.SingleValueOverloadRestrictsOnBlank | SearchUtils.CorrectedSingleValueOverload |
