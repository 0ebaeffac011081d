/**
 * `NameValuesPair`: one layered-metadata criterion, a name and the values it
 * may take. Both are fixed by the constructor and only read afterwards, so
 * the pair is a value.
 */
module NameValues {
  import opened Wrappers

  /**
   * The Java constructor stores both arguments as given: the name may be
   * null (`None`), and the values array is kept in order, untrimmed and
   * uncopied. `getName` and `getValues` are the two field selectors.
   */
  datatype NameValuesPair = NameValuesPair(name: Option<string>, values: seq<string>)

  /** The getters give back exactly what the constructor was handed. */
  lemma GettersReturnConstructorArguments(name: Option<string>, values: seq<string>)
    ensures NameValuesPair(name, values).name == name
    ensures NameValuesPair(name, values).values == values
  {
  }

  /** `getStarterList`: a fresh list holding the one pair built from the arguments. */
  function GetStarterList(name: Option<string>, values: seq<string>): (r: seq<NameValuesPair>)
    ensures |r| == 1
    ensures r[0].name == name && r[0].values == values
  {
    [NameValuesPair(name, values)]
  }
}
