/**
 * The party normaliser: a raw Wikipedia party token (the article name a
 * politician's infobox links to) becomes a display label. Five closed
 * synonym lists fold regional branches, predecessor parties and the
 * various "no party" designations onto one label each; every other token
 * is shown as its own decoded article name.
 */
module PartyNames {
  import opened Wrappers
  import opened Text

  const ConservativeTokens: seq<string> :=
    ["Conservative_Party_(UK)", "Scottish_Conservatives", "Welsh_Conservative_Party"]

  /** The Labour and Co-operative Party counts as Labour; the Irish Labour Party does not. */
  const LabourTokens: seq<string> :=
    ["Labour_Party_(UK)", "Labour_and_Co-operative", "Scottish_Labour_Party", "Welsh_Labour"]

  /** The Liberal Party and the SDP merged into the Liberal Democrats. */
  const LiberalTokens: seq<string> :=
    [ "Liberal_Democrats_(UK)", "Scottish_Liberal_Democrats", "Welsh_Liberal_Democrats",
      "Liberal_Party_(UK)", "Social_Democratic_Party_(UK)" ]

  const GreenTokens: seq<string> :=
    ["Green_Party_(UK)", "Green_Party_of_England_and_Wales", "Scottish_Green_Party"]

  const IndependentTokens: seq<string> :=
    ["Independent_politician", "Independent_(politics)", "Crossbench", "Crossbencher"]

  /** Label for a token that is absent or empty. */
  const UnknownLabel: string := "Unknown"

  datatype Group = Conservative | Labour | Liberal | Green | Independent

  function Members(g: Group): seq<string> {
    match g
    case Conservative => ConservativeTokens
    case Labour => LabourTokens
    case Liberal => LiberalTokens
    case Green => GreenTokens
    case Independent => IndependentTokens
  }

  function Label(g: Group): string {
    match g
    case Conservative => "Conservative Party"
    case Labour => "Labour Party"
    case Liberal => "Liberal Party"
    case Green => "Green Party"
    case Independent => "Independent"
  }

  /** The token is in none of the five lists. */
  predicate Unlisted(token: string) {
    forall g: Group :: token !in Members(g)
  }

  /** Being unlisted means being in none of the five lists `getNormalizedPartyName` tries in turn. */
  lemma UnlistedIff(token: string)
    ensures Unlisted(token) <==>
              && token !in ConservativeTokens && token !in LabourTokens && token !in LiberalTokens
              && token !in GreenTokens && token !in IndependentTokens
  {
    assert Members(Conservative) == ConservativeTokens && Members(Labour) == LabourTokens;
    assert Members(Liberal) == LiberalTokens && Members(Green) == GreenTokens && Members(Independent) == IndependentTokens;
  }

  /** No token belongs to two groups, so the order in which the lists are tried is irrelevant. */
  lemma GroupsDisjoint(g: Group, h: Group, token: string)
    requires token in Members(g) && token in Members(h)
    ensures g == h
  {
  }

  /**
   * `getNormalizedPartyName`. `None` is the URIError `decodeURIComponent`
   * throws on a malformed escape in an unlisted token.
   */
  function Normalize(token: Option<string>, decode: Decoder): (r: Option<string>)
    ensures !Truthy(token) ==> r == Some(UnknownLabel)
    ensures r.None? ==> Truthy(token) && decode(token.value).None?
  {
    if !Truthy(token) then Some(UnknownLabel)
    else
      var t := token.value;
      if t in ConservativeTokens then Some("Conservative Party")
      else if t in LabourTokens then Some("Labour Party")
      else if t in LiberalTokens then Some("Liberal Party")
      else if t in GreenTokens then Some("Green Party")
      else if t in IndependentTokens then Some("Independent")
      else
        match decode(t)
        case None => None
        case Some(d) => Some(ReplaceChar(d, '_', ' '))
  }

  /** Every listed token is truthy, so it never falls back to "Unknown". */
  lemma ListedNonEmpty(g: Group, token: string)
    requires token in Members(g)
    ensures token != ""
  {
    match g
    case Conservative =>
    case Labour =>
    case Liberal =>
    case Green =>
    case Independent =>
  }

  /**
   * Every listed token gets exactly its group's label, whatever the order in
   * which `getNormalizedPartyName` tries the lists.
   */
  lemma NormalizeListed(g: Group, token: string, decode: Decoder)
    requires token in Members(g)
    ensures Normalize(Some(token), decode) == Some(Label(g))
  {
    ListedNonEmpty(g, token);
    if token in ConservativeTokens { GroupsDisjoint(g, Conservative, token); }
    else if token in LabourTokens { GroupsDisjoint(g, Labour, token); }
    else if token in LiberalTokens { GroupsDisjoint(g, Liberal, token); }
    else if token in GreenTokens { GroupsDisjoint(g, Green, token); }
  }

  /**
   * Any other non-empty token is shown as its decoded article name with every
   * underscore turned into a space, so the label never carries an underscore;
   * it fails only when decoding fails.
   */
  lemma NormalizeUnlisted(token: string, decode: Decoder)
    requires token != "" && Unlisted(token)
    ensures Normalize(Some(token), decode).None? <==> decode(token).None?
    ensures decode(token).Some? ==>
              var name := Normalize(Some(token), decode).value;
              && |name| == |decode(token).value|
              && '_' !in name
              && forall k :: 0 <= k < |name| ==>
                   name[k] == (if decode(token).value[k] == '_' then ' ' else decode(token).value[k])
  {
    UnlistedIff(token);
    if decode(token).Some? {
      var name := Normalize(Some(token), decode).value;
      assert forall k :: 0 <= k < |name| ==> name[k] != '_';
    }
  }
}
