/**
 * The entity resolver and its in-memory cache. The cache maps a Wikipedia
 * article name (the part of a panellist's link after `/wiki/`) to the record
 * built from the one parse-API response received for it. Every stored value
 * is a JSON object and so truthy, even the empty record `{}`: a key that is
 * present is a hit.
 */
module Entities {
  import opened Wrappers
  import opened Text
  import Infobox

  /** What is known about an article: its canonical title and the party token its infobox links to. */
  datatype Entity = Entity(title: Option<string>, party: Option<string>)

  type Cache = map<string, Entity>

  /**
   * The outcome of one request to the Wikipedia parse API. `content` is
   * `json.parse.text['*']` when `json.parse.text` is present; `title` is
   * `json.parse.title`.
   */
  datatype Fetch =
    | Threw
    | Responded(content: Option<string>, title: Option<string>)

  /** How a lookup was answered. */
  datatype Lookup = Hit(entity: Entity) | Fetched(entity: Entity) | NoAnswer

  datatype Resolution = Resolution(cache: Cache, lookup: Lookup)

  /**
   * The record written for a response: `party` exactly when the infobox
   * pattern matched, `title` exactly when the response's title is truthy.
   */
  function Record(content: Option<string>, title: Option<string>): (e: Entity)
    ensures e.party.Some? <==> content.Some? && Infobox.PartyToken(content.value).Some?
    ensures e.party.Some? ==> e.party == Infobox.PartyToken(content.value)
    ensures e.title.Some? <==> Truthy(title)
    ensures e.title.Some? ==> e.title == title
  {
    Entity(
      if Truthy(title) then title else None,
      if content.Some? then Infobox.PartyToken(content.value) else None)
  }

  /** The record a response yields. */
  function RecordOf(outcome: Fetch): Entity
    requires outcome.Responded?
  {
    Record(outcome.content, outcome.title)
  }

  /**
   * Looks `key` up, consulting the network only on a miss. A response is
   * cached under `key` and nowhere else; a fetch that throws never settles
   * the surrounding promise, so nothing is written.
   */
  function Resolve(cache: Cache, key: string, outcome: Fetch): (r: Resolution)
    ensures r.lookup.Hit? <==> key in cache
    ensures r.lookup.Hit? ==> r.cache == cache && r.lookup.entity == cache[key]
    ensures r.lookup.NoAnswer? <==> key !in cache && outcome.Threw?
    ensures r.lookup.NoAnswer? ==> r.cache == cache
    ensures r.lookup.Fetched? ==>
              && r.cache.Keys == cache.Keys + {key}
              && r.cache[key] == r.lookup.entity == Record(outcome.content, outcome.title)
    ensures forall k :: k in cache && k != key ==> k in r.cache && r.cache[k] == cache[k]
  {
    if key in cache then Resolution(cache, Hit(cache[key]))
    else
      match outcome
      case Threw => Resolution(cache, NoAnswer)
      case Responded(content, title) =>
        var e := Record(content, title);
        Resolution(cache[key := e], Fetched(e))
  }

  /**
   * At most one fetch per key: once a lookup has been answered, looking the
   * same key up again is a hit that returns the same record, whatever the
   * network would say now.
   */
  lemma ResolveAgain(cache: Cache, key: string, first: Fetch, later: Fetch)
    requires !Resolve(cache, key, first).lookup.NoAnswer?
    ensures var r := Resolve(cache, key, first);
            Resolve(r.cache, key, later) == Resolution(r.cache, Hit(r.lookup.entity))
  {
  }
}
