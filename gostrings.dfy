/** The part of Go's strings package that both the parser and the configuration loader rely on. */
module GoStrings {
  /** strings.Join(elems, sep): the elements with `sep` between neighbours; no elements give "". */
  function Join(elems: seq<string>, sep: string): string
  {
    if elems == [] then ""
    else if |elems| == 1 then elems[0]
    else elems[0] + sep + Join(elems[1..], sep)
  }
}
