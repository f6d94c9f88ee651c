/**
 * One panellist mention of one episode row, from the comma-separated piece
 * of the panellists cell to the appearance record (or to nothing):
 * - clean the display text and find the link whose text matches it;
 * - resolve the linked article through the cache (or the network);
 * - layer the display name, the resolved record and the manual patch;
 * - normalise the party and build the record, emitted only when a title remains.
 */
module Appearances {
  import opened Wrappers
  import opened Text
  import opened Entities
  import PartyNames

  /** An `<a>` element of the panellists cell: its visible text and its `href` attribute. */
  datatype Anchor = Anchor(text: string, href: Option<string>)

  /** The panellists cell, already reduced to plain text plus the links it contains. */
  datatype Panel = Panel(text: string, anchors: seq<Anchor>)

  /**
   * One row of the episode table. `number` is the raw `#` cell (empty when
   * missing); `date` and `location` are the already-formatted cells;
   * `panellists` is None when the cell is missing or empty.
   */
  datatype Row = Row(number: string, date: string, location: string, panellists: Option<Panel>)

  /** One output line's fields. */
  datatype Appearance = Appearance(
    episode: string, date: string, location: string,
    guest: string, guestUrl: string, party: string, partyUrl: string)

  /**
   * An entry of the patch file: a title and a party that, where truthy,
   * override what Wikipedia says. It has the shape of a cached record.
   */
  type PatchEntry = Entity

  /** The patch file: article name to override. */
  type Patch = map<string, PatchEntry>

  /** The read-only inputs of a run: the patch file, the network, and `decodeURIComponent`. */
  datatype Sources = Sources(patch: Patch, net: string -> Fetch, decode: Decoder)

  /** The working `title` and `party` variables of one mention. */
  datatype Guest = Guest(title: string, party: Option<string>)

  /** Why a run stops early: a fetch that never settles, or a URIError from decoding. */
  datatype Halt = Hung(key: string) | UriError

  /** What becomes of one mention. */
  datatype Outcome = Emit(record: Appearance) | Skip | Stop(reason: Halt)

  /** The effect of one mention: the cache after it, the key fetched for it (if any), and its outcome. */
  datatype Step = Step(cache: Cache, fetched: Option<string>, outcome: Outcome)

  const WikiPath: string := "/wiki/"
  const ArticleBase: string := "https://en.wikipedia.org/wiki/"

  // ------------------------------------------------------------ anchors

  /** The link's cleaned text is the mention's cleaned text. */
  predicate Names(a: Anchor, title: string) {
    Clean(a.text) == title
  }

  /** `anchors[i]` is the last link satisfying `hit`. */
  ghost predicate LastHit(hit: Anchor -> bool, anchors: seq<Anchor>, i: int) {
    && 0 <= i < |anchors|
    && hit(anchors[i])
    && forall j :: i < j < |anchors| ==> !hit(anchors[j])
  }

  /** A loop over the links in which every link satisfying `hit` overwrites `url` with its `href` (absent or not). */
  function Overwrite(hit: Anchor -> bool, anchors: seq<Anchor>, url: Option<string>): Option<string> {
    if |anchors| == 0 then url
    else Overwrite(hit, anchors[1..], if hit(anchors[0]) then anchors[0].href else url)
  }

  /** The loop leaves the `href` of the last link satisfying `hit`, or `url` when no link does. */
  lemma {:induction false} OverwriteLast(hit: Anchor -> bool, anchors: seq<Anchor>, url: Option<string>)
    ensures (forall j :: 0 <= j < |anchors| ==> !hit(anchors[j])) ==> Overwrite(hit, anchors, url) == url
    ensures forall i :: LastHit(hit, anchors, i) ==> Overwrite(hit, anchors, url) == anchors[i].href
  {
    if |anchors| > 0 {
      var next := if hit(anchors[0]) then anchors[0].href else url;
      OverwriteLast(hit, anchors[1..], next);
      forall i | LastHit(hit, anchors, i) && i > 0
        ensures LastHit(hit, anchors[1..], i - 1)
      {
      }
    }
  }

  /** The `$('a').each` loop looking for the link whose cleaned text is the mention's cleaned text. */
  function MatchHref(title: string, anchors: seq<Anchor>, url: Option<string>): Option<string> {
    Overwrite(a => Names(a, title), anchors, url)
  }

  /**
   * The link found is the `href` of the last anchor naming the mention; with
   * no such anchor, `url` keeps its initial value.
   */
  lemma MatchHrefLast(title: string, anchors: seq<Anchor>, url: Option<string>)
    ensures (forall j :: 0 <= j < |anchors| ==> !Names(anchors[j], title)) ==> MatchHref(title, anchors, url) == url
    ensures forall i :: 0 <= i < |anchors| && Names(anchors[i], title) && (forall j :: i < j < |anchors| ==> !Names(anchors[j], title))
              ==> MatchHref(title, anchors, url) == anchors[i].href
  {
    OverwriteLast(a => Names(a, title), anchors, url);
  }

  // ------------------------------------------------------------ URLs

  /** The article name looked up for a link: the link with a leading `/wiki/` removed. */
  function EntityName(url: string): (name: string)
    ensures WikiPath <= url ==> WikiPath + name == url
    ensures !(WikiPath <= url) ==> name == url
  {
    RewritePrefix(url, WikiPath, "")
  }

  /** `GuestUrl`: the link made absolute when it starts with `/wiki/`, or empty without a link. */
  function GuestUrl(url: Option<string>): (r: string)
    ensures !Truthy(url) ==> r == ""
    ensures Truthy(url) && WikiPath <= url.value ==> r == ArticleBase + EntityName(url.value)
    ensures Truthy(url) && !(WikiPath <= url.value) ==> r == url.value
  {
    if Truthy(url) then RewritePrefix(url.value, WikiPath, ArticleBase) else ""
  }

  /** `PartyUrl`: the party's article, or empty without a party. */
  function PartyUrl(party: Option<string>): (r: string)
    ensures r == "" <==> !Truthy(party)
    ensures Truthy(party) ==> ArticleBase <= r && r[|ArticleBase|..] == party.value
  {
    if Truthy(party) then ArticleBase + party.value else ""
  }

  // ------------------------------------------------------------ layering

  /** Overwrites each field of `g` with the matching field of `e`, but only where that field is truthy. */
  function Layer(g: Guest, e: Entity): Guest {
    Guest(if Truthy(e.title) then e.title.value else g.title,
          if Truthy(e.party) then e.party else g.party)
  }

  /** The manual patch for `key`, if the patch file has one. */
  function Patched(g: Guest, patch: Patch, key: string): Guest {
    if key in patch then Layer(g, patch[key]) else g
  }

  /** A mention's resolution: the cache after it, the key fetched, the working fields — or a fetch left hanging. */
  datatype Resolved = Resolved(cache: Cache, fetched: Option<string>, guest: Guest) | Waiting(key: string)

  /** Lines 136-196: without a truthy link nothing is looked up; otherwise cache or fetch, then the patch. */
  function ResolveGuest(cache: Cache, src: Sources, display: string, url: Option<string>): (r: Resolved)
    ensures r.Resolved? && r.fetched.None? ==> r.cache == cache
    ensures r.Resolved? && r.fetched.Some? ==>
              && r.fetched.value !in cache
              && src.net(r.fetched.value).Responded?
              && r.cache == cache[r.fetched.value := RecordOf(src.net(r.fetched.value))]
    ensures r.Waiting? ==> r.key !in cache && src.net(r.key).Threw?
    ensures !Truthy(url) ==> r == Resolved(cache, None, Guest(display, None))
    ensures Truthy(url) ==>
              var key := EntityName(url.value);
              && (r.Waiting? ==> r.key == key)
              && (r.Resolved? && r.fetched.Some? ==> r.fetched == Some(key))
              && (key in cache ==> r.Resolved? && r.fetched.None?)
              && (key !in cache && src.net(key).Responded? ==> r.Resolved? && r.fetched == Some(key))
              && (key !in cache && src.net(key).Threw? ==> r.Waiting?)
  {
    var start := Guest(display, None);
    if !Truthy(url) then Resolved(cache, None, start)
    else
      var key := EntityName(url.value);
      var res := Resolve(cache, key, src.net(key));
      match res.lookup
      case NoAnswer => Waiting(key)
      case Hit(e) => Resolved(res.cache, None, Patched(Layer(start, e), src.patch, key))
      case Fetched(e) => Resolved(res.cache, Some(key), Patched(Layer(start, e), src.patch, key))
  }

  // ------------------------------------------------------------ records

  /**
   * Builds the appearance object (decoding the title and normalising the
   * party, either of which may throw) and keeps it only when the title is
   * non-empty.
   */
  function Build(row: Row, url: Option<string>, g: Guest, decode: Decoder): (r: Outcome)
    ensures r.Stop? <==> decode(g.title).None? || PartyNames.Normalize(g.party, decode).None?
    ensures r.Stop? ==> r.reason == UriError
    ensures r.Emit? <==> !r.Stop? && g.title != ""
    ensures r.Emit? ==>
              && r.record.episode == row.number && r.record.date == row.date && r.record.location == row.location
              && Some(r.record.guest) == decode(g.title)
              && Some(r.record.party) == PartyNames.Normalize(g.party, decode)
              && (r.record.partyUrl != "" <==> Truthy(g.party))
              && (Truthy(g.party) ==> r.record.partyUrl == ArticleBase + g.party.value)
              && r.record.guestUrl == GuestUrl(url)
              && (r.record.guestUrl == "" <==> !Truthy(url))
  {
    match (decode(g.title), PartyNames.Normalize(g.party, decode))
    case (Some(name), Some(partyName)) =>
      if g.title != "" then
        Emit(Appearance(row.number, row.date, row.location, name, GuestUrl(url), partyName, PartyUrl(g.party)))
      else Skip
    case _ => Stop(UriError)
  }

  /**
   * The per-panellist body of the loop. The only cache change is the record
   * of a fetch that was answered, for a key the cache did not hold; a fetch
   * that never settles leaves the cache as it was.
   */
  function ProcessMention(cache: Cache, src: Sources, row: Row, piece: string, anchors: seq<Anchor>): (r: Step)
    ensures r.fetched.None? ==> r.cache == cache
    ensures r.fetched.Some? ==>
              && r.fetched.value !in cache
              && src.net(r.fetched.value).Responded?
              && r.cache == cache[r.fetched.value := RecordOf(src.net(r.fetched.value))]
    ensures r.outcome.Stop? && r.outcome.reason.Hung? ==>
              && r.fetched.None?
              && r.outcome.reason.key !in cache
              && src.net(r.outcome.reason.key).Threw?
    ensures r.outcome.Emit? ==> r.outcome.record.episode == row.number
    ensures var url := MatchHref(Clean(piece), anchors, None);
            !Truthy(url) ==> r.cache == cache && r.fetched.None? && !(r.outcome.Stop? && r.outcome.reason.Hung?)
    ensures var url := MatchHref(Clean(piece), anchors, None);
            Truthy(url) ==>
              var key := EntityName(url.value);
              && (r.outcome.Stop? && r.outcome.reason.Hung? ==> r.outcome.reason.key == key)
              && (r.fetched.Some? ==> r.fetched == Some(key))
              && (key in cache ==> r.fetched.None? && !(r.outcome.Stop? && r.outcome.reason.Hung?))
              && (key !in cache && src.net(key).Responded? ==> r.fetched == Some(key))
              && (key !in cache && src.net(key).Threw? ==> r.outcome == Stop(Hung(key)))
  {
    var display := Clean(piece);
    var url := MatchHref(display, anchors, None);
    match ResolveGuest(cache, src, display, url)
    case Waiting(key) => Step(cache, None, Stop(Hung(key)))
    case Resolved(c, fetched, g) => Step(c, fetched, Build(row, url, g, src.decode))
  }

  // ------------------------------------------------------------ properties

  /** The first truthy value in precedence order, else `fallback`. */
  function FirstTruthy(values: seq<Option<string>>, fallback: Option<string>): (r: Option<string>)
    ensures (forall i :: 0 <= i < |values| ==> !Truthy(values[i])) ==> r == fallback
    ensures forall i :: 0 <= i < |values| && Truthy(values[i]) && (forall j :: 0 <= j < i ==> !Truthy(values[j]))
              ==> r == values[i]
  {
    if |values| == 0 then fallback
    else if Truthy(values[0]) then values[0]
    else FirstTruthy(values[1..], fallback)
  }

  /** The patch entry for `key`, or an entry that overrides nothing. */
  function PatchFor(patch: Patch, key: string): PatchEntry {
    if key in patch then patch[key] else Entity(None, None)
  }

  /**
   * Three-tier precedence, field by field: the output title is the first
   * truthy one of the patch title, the resolved title and the display name;
   * the output party is the first truthy one of the patch party and the
   * resolved party, else none.
   */
  lemma Precedence(cache: Cache, src: Sources, display: string, url: Option<string>)
    requires Truthy(url)
    requires ResolveGuest(cache, src, display, url).Resolved?
    ensures var key := EntityName(url.value);
            var e := Resolve(cache, key, src.net(key)).lookup.entity;
            var p := PatchFor(src.patch, key);
            var g := ResolveGuest(cache, src, display, url).guest;
            && g.title == FirstTruthy([p.title, e.title], Some(display)).value
            && g.party == FirstTruthy([p.party, e.party], None)
  {
    var key := EntityName(url.value);
    var e := Resolve(cache, key, src.net(key)).lookup.entity;
    var p := PatchFor(src.patch, key);
    assert [p.title, e.title][1..] == [e.title];
    assert [p.party, e.party][1..] == [e.party];
    assert [e.title][1..] == [] && [e.party][1..] == [];
    assert FirstTruthy([e.title], Some(display)) == if Truthy(e.title) then e.title else Some(display);
    assert FirstTruthy([e.party], None) == if Truthy(e.party) then e.party else None;
    var layered := Layer(Guest(display, None), e);
    assert ResolveGuest(cache, src, display, url).guest == Patched(layered, src.patch, key);
    assert Patched(layered, src.patch, key) == Layer(layered, p);
  }

  /**
   * The patch changes only the output: the cache, the fetch made and
   * whether the mention hangs are the same under any other patch file.
   */
  lemma PatchLeavesCache(cache: Cache, src: Sources, other: Patch, display: string, url: Option<string>)
    ensures var r := ResolveGuest(cache, src, display, url);
            var r' := ResolveGuest(cache, src.(patch := other), display, url);
            && r.Resolved? == r'.Resolved?
            && (r.Resolved? ==> r.cache == r'.cache && r.fetched == r'.fetched)
            && (r.Waiting? ==> r.key == r'.key)
  {
  }

  /**
   * A patch entry with only a party: the output party is the patch's, the
   * output title is what it would be with no patch at all.
   */
  lemma PartyOnlyPatch(cache: Cache, src: Sources, display: string, url: Option<string>)
    requires Truthy(url)
    requires EntityName(url.value) in src.patch
    requires !Truthy(src.patch[EntityName(url.value)].title) && Truthy(src.patch[EntityName(url.value)].party)
    requires ResolveGuest(cache, src, display, url).Resolved?
    ensures var g := ResolveGuest(cache, src, display, url).guest;
            var unpatched := ResolveGuest(cache, src.(patch := map[]), display, url);
            && unpatched.Resolved?
            && g.title == unpatched.guest.title
            && g.party == src.patch[EntityName(url.value)].party
  {
  }

  /**
   * A mention with no usable link: nothing is looked up, the cache is left
   * alone, and a record, if emitted, is the display name with no URLs and
   * the party "Unknown".
   */
  lemma NoReference(cache: Cache, src: Sources, row: Row, piece: string, anchors: seq<Anchor>)
    requires !Truthy(MatchHref(Clean(piece), anchors, None))
    ensures var r := ProcessMention(cache, src, row, piece, anchors);
            && r.cache == cache
            && r.fetched.None?
            && (r.outcome.Stop? ==> r.outcome.reason == UriError)
            && (r.outcome.Emit? <==> Clean(piece) != "" && src.decode(Clean(piece)).Some?)
            && (r.outcome.Emit? ==>
                  && Some(r.outcome.record.guest) == src.decode(Clean(piece))
                  && r.outcome.record.guestUrl == ""
                  && r.outcome.record.party == PartyNames.UnknownLabel
                  && r.outcome.record.partyUrl == "")
  {
  }

  /**
   * A cache hit (a stored empty record included) fetches nothing, keeps the
   * cache, and resolves from exactly the cached record.
   */
  lemma CacheHit(cache: Cache, src: Sources, display: string, url: Option<string>)
    requires Truthy(url) && EntityName(url.value) in cache
    ensures var r := ResolveGuest(cache, src, display, url);
            var key := EntityName(url.value);
            && r.Resolved?
            && r.cache == cache
            && r.fetched.None?
            && r.guest == Patched(Layer(Guest(display, None), cache[key]), src.patch, key)
  {
  }

  /**
   * A guest with a title and a listed party token is emitted under the
   * decoded title and the party group's label, with the token's own
   * article as the party URL.
   */
  lemma BuildListed(row: Row, url: Option<string>, g: Guest, decode: Decoder, grp: PartyNames.Group)
    requires g.title != "" && decode(g.title).Some?
    requires g.party.Some? && g.party.value in PartyNames.Members(grp)
    ensures Build(row, url, g, decode) ==
              Emit(Appearance(row.number, row.date, row.location, decode(g.title).value,
                              GuestUrl(url), PartyNames.Label(grp), ArticleBase + g.party.value))
  {
    PartyNames.NormalizeListed(grp, g.party.value, decode);
  }

  // ------------------------------------------------------------ scenarios

  /** The lookup of a key fetched for the first time, with no patch entry, yields the response's title and token. */
  lemma FirstFetchResolve(cache: Cache, src: Sources, display: string, url: Option<string>,
                          content: string, title: string, token: string)
    requires Truthy(url)
    requires var key := EntityName(url.value);
             key !in cache && key !in src.patch && src.net(key) == Responded(Some(content), Some(title))
    requires title != "" && token != "" && Infobox.PartyToken(content) == Some(token)
    ensures var key := EntityName(url.value);
            ResolveGuest(cache, src, display, url) ==
              Resolved(cache[key := Entity(Some(title), Some(token))], Some(key), Guest(title, Some(token)))
  {
    var key := EntityName(url.value);
    assert RecordOf(src.net(key)) == Entity(Some(title), Some(token));
  }

  /**
   * A linked panellist whose article is fetched for the first time, with no
   * patch entry: the response's title replaces the display text, and a
   * listed party token is shown under its group's label with the token's
   * own article as the party URL.
   */
  lemma FirstFetch(cache: Cache, src: Sources, row: Row, piece: string, anchors: seq<Anchor>,
                   content: string, title: string, token: string, grp: PartyNames.Group)
    requires Truthy(MatchHref(Clean(piece), anchors, None))
    requires var key := EntityName(MatchHref(Clean(piece), anchors, None).value);
             key !in cache && key !in src.patch && src.net(key) == Responded(Some(content), Some(title))
    requires title != "" && src.decode(title).Some?
    requires Infobox.PartyToken(content) == Some(token) && token in PartyNames.Members(grp)
    ensures var url := MatchHref(Clean(piece), anchors, None);
            var key := EntityName(url.value);
            var r := ProcessMention(cache, src, row, piece, anchors);
            && r.fetched == Some(key)
            && r.cache == cache[key := Entity(Some(title), Some(token))]
            && r.outcome == Emit(Appearance(row.number, row.date, row.location, src.decode(title).value,
                                            GuestUrl(url), PartyNames.Label(grp), ArticleBase + token))
  {
    var url := MatchHref(Clean(piece), anchors, None);
    PartyNames.ListedNonEmpty(grp, token);
    FirstFetchResolve(cache, src, Clean(piece), url, content, title, token);
    BuildListed(row, url, Guest(title, Some(token)), src.decode, grp);
  }

  /** A panellist with no link: shown verbatim, with no URLs and the party "Unknown". */
  lemma UnlinkedMention(cache: Cache, src: Sources, row: Row)
    requires src.decode("A Member of the Public") == Some("A Member of the Public")
    ensures var r := ProcessMention(cache, src, row, "A Member of the Public", []);
            && r.cache == cache
            && r.outcome == Emit(Appearance(row.number, row.date, row.location,
                                            "A Member of the Public", "", "Unknown", ""))
  {
    CleanUnchanged("A Member of the Public");
    NoReference(cache, src, row, "A Member of the Public", []);
  }
}
