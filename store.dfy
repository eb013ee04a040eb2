/**
  The store adapter over the browser's key-value store (src/cities.js:36-61).

  A stored value is what JSON.parse makes of the text under a key: either a record with the
  session's fields, or `Corrupt` for text that does not parse, parses to `null` or is empty.
  A record written elsewhere may lack its offers list.
 */
module SessionStore {

  import opened Wrappers
  import opened Codes
  import opened Sessions

  datatype Stored =
    | Corrupt
    | Record(code: string, host: Option<string>, guest: Option<string>, offers: Option<seq<Offer>>)

  type Items = map<string, Stored>

  /** JSON.stringify of a session: every field is written. */
  function Encode(s: Session): Stored
  {
    Record(s.code, s.host, s.guest, Some(s.offers))
  }

  /**
    loadSession: the record under the key of `code`, provided it parses and its own code is
    the normalized `code`; a missing offers list reads as none.
   */
  function LoadSession(items: Items, code: string): (r: Option<Session>)
    ensures r.Some? ==> SessionKey(code) in items && items[SessionKey(code)].Record?
    ensures r.Some? ==> r.value.code == Normalize(code)
    ensures SessionKey(code) !in items || items[SessionKey(code)].Corrupt? ==> r.None?
  {
    var key := SessionKey(code);
    if key !in items then None
    else match items[key]
      case Corrupt => None
      case Record(c, host, guest, offers) =>
        if c != Normalize(code) then None
        else Some(Session(c, host, guest, if offers.Some? then offers.value else []))
  }

  /** A record without an offers list loads with no offers. */
  lemma LoadDefaultsOffers(items: Items, code: string)
    requires SessionKey(code) in items
    requires var v := items[SessionKey(code)]; v.Record? && v.code == Normalize(code) && v.offers.None?
    ensures LoadSession(items, code).Some? && LoadSession(items, code).value.offers == []
  {
  }

  /** A record whose own code is not the normalized lookup code is treated as absent. */
  lemma LoadRejectsStaleCode(items: Items, code: string)
    requires SessionKey(code) in items
    requires var v := items[SessionKey(code)]; v.Record? && v.code != Normalize(code)
    ensures LoadSession(items, code).None?
  {
  }

  /**
    Saving under one code and loading under another: the same normalized code gives the
    session back exactly when its own code is that normalized code, and any other code sees
    the store as it was.
   */
  lemma LoadAfterSave(items: Items, code: string, s: Session, other: string)
    ensures LoadSession(items[SessionKey(code) := Encode(s)], other) ==
      if Normalize(other) != Normalize(code) then LoadSession(items, other)
      else if s.code == Normalize(code) then Some(s)
      else None
  {
    SessionKeyInjective(code, other);
  }

  /** Save then load: a session saved under its own normalized code loads back unchanged. */
  lemma SaveLoadRoundTrip(items: Items, s: Session)
    requires s.code == Normalize(s.code)
    ensures LoadSession(items[SessionKey(s.code) := Encode(s)], s.code) == Some(s)
  {
    LoadAfterSave(items, s.code, s, s.code);
  }

  /** After a delete the code loads as absent; other codes see the store as it was. */
  lemma LoadAfterDelete(items: Items, code: string, other: string)
    ensures LoadSession(items - {SessionKey(code)}, other) ==
      if Normalize(other) == Normalize(code) then None else LoadSession(items, other)
  {
    SessionKeyInjective(code, other);
  }

  /** The browser's key-value store, shared by every client on the same origin. */
  class LocalStorage {
    var items: Items

    constructor (items: Items)
      ensures this.items == items
    {
      this.items := items;
    }

    /** saveSession: one write, under the key of `code`. */
    method SaveSession(code: string, s: Session)
      modifies this
      ensures items == old(items)[SessionKey(code) := Encode(s)]
    {
      items := items[SessionKey(code) := Encode(s)];
    }

    /** deleteSession: removes the key of `code`. */
    method DeleteSession(code: string)
      modifies this
      ensures items == old(items) - {SessionKey(code)}
    {
      items := items - {SessionKey(code)};
    }
  }
}
