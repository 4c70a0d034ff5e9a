/**
 * The closed set of wake words the demo offers (the `Keywords` enum), with
 * its string codec: `from_str` parses a menu or file-name identifier,
 * `to_str` gives a variant's identifier and `options` lists the identifiers
 * shown in the selection menu.
 */
module Keywords {
  import opened Prelude

  /** A supported wake word; the enum has the single variant `Position`. */
  datatype Keyword = Position

  /** `Keywords::from_str`: exactly "position" parses; every other string is `Err(())`. */
  function FromStr(s: string): (r: Result<Keyword, ()>)
    ensures r.Ok? <==> s == "position"
    ensures r.Ok? ==> r.value == Position
  {
    match s
    case "position" => Ok(Position)
    case _ => Err(())
  }

  /** `Keywords::to_str`: the identifier of a variant. */
  function ToStr(k: Keyword): (r: string)
    ensures FromStr(r) == Ok(k)
  {
    match k
    case Position => "position"
  }

  /** `Keywords::options`: the identifiers listed in the keyword menu, in order. */
  function Options(): (r: seq<string>)
    ensures forall i :: 0 <= i < |r| ==> FromStr(r[i]).Ok?
    ensures forall k: Keyword :: ToStr(k) in r
  {
    ["position"]
  }

  /** Whatever parses is the identifier of what it parses to. */
  lemma ParseIsInverse(s: string)
    requires FromStr(s).Ok?
    ensures ToStr(FromStr(s).value) == s
  {
  }

  /** `options()` holds each variant's identifier exactly once and nothing else. */
  lemma OptionsListEachVariantOnce()
    ensures |Options()| == 1
    ensures forall k: Keyword :: multiset(Options())[ToStr(k)] == 1
    ensures forall s :: s in Options() <==> exists k: Keyword :: ToStr(k) == s
  {
    assert ToStr(Position) == Options()[0];
  }
}
