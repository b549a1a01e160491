/** `dev.jaqobb.namemc_api.data.Server`: an immutable server record whose
    address is stored lower-cased. */
module Data {
  import opened Lang
  import opened Text
  import opened Uuids

  /** A string with no upper-case letter: every address a `Server` holds. */
  type LowerCaseString = s: string | IsLowerCase(s) witness []

  /** Address (always lower case), the likers' ids in the order given, and the
      capture instant in epoch milliseconds. The fields are final; the likes
      are the caller's collection, which this value takes a snapshot of. */
  datatype Server = Server(address: LowerCaseString, likes: seq<Uuid>, cacheTime: int)
  {
    /** `getLikes()`: exactly the ids for which `hasLiked` answers true. */
    function GetLikes(): (result: seq<Uuid>)
      ensures forall u :: u in result <==> HasLiked(Some(u)) == Success(true)
    {
      likes
    }

    /** `hasLiked(uniqueId)`: a null id throws; otherwise whether some like
        is that id. */
    function HasLiked(uniqueId: Option<Uuid>): (r: Result<bool, Exception>)
      ensures uniqueId.None? <==> r == Failure(NullPointer("uniqueId"))
      ensures r.Success? ==> (r.value <==> exists i :: 0 <= i < |likes| && likes[i] == uniqueId.value)
    {
      if uniqueId.None? then Failure(NullPointer("uniqueId"))
      else Success(uniqueId.value in likes)
    }

    /** `equals(object)`: equal to no null reference, and to a server exactly
        when the two are the same value. */
    function Equals(other: Option<Server>): (r: bool)
      ensures r <==> other == Some(this)
    {
      other.Some? && cacheTime == other.value.cacheTime &&
      address == other.value.address && likes == other.value.likes
    }
  }

  /** The protected constructor, run at instant `now`: the address is stored
      as its lower-case form, the likes as given. */
  function New(address: string, likes: seq<Uuid>, now: int): (s: Server)
    ensures EqualsIgnoreCase(s.address, address)
    ensures s.likes == likes && s.cacheTime == now
  {
    Server(ToLower(address), likes, now)
  }

  /** Building from an address that is already lower case keeps it verbatim. */
  lemma NewKeepsLowerCaseAddress(address: string, likes: seq<Uuid>, now: int)
    requires IsLowerCase(address)
    ensures New(address, likes, now).address == address
  {
  }

  /** The likes once every one of them is known to be non-null. */
  function NonNull(likes: seq<Option<Uuid>>): (ids: seq<Uuid>)
    requires forall i :: 0 <= i < |likes| ==> likes[i].Some?
    ensures |ids| == |likes| && forall i :: 0 <= i < |likes| ==> likes[i] == Some(ids[i])
  {
    seq(|likes|, i requires 0 <= i < |likes| => likes[i].value)
  }

  /** `Server.of(address, likes)` at instant `now`: a null address, a null
      collection or a null element throws, checked in that order; otherwise
      the server is built by the constructor. */
  method Of(address: Option<string>, likes: Option<seq<Option<Uuid>>>, now: int) returns (r: Result<Server, Exception>)
    ensures address.None? ==> r == Failure(NullPointer("address"))
    ensures address.Some? && likes.None? ==> r == Failure(NullPointer("likes"))
    ensures address.Some? && likes.Some? ==>
      (r.Success? <==> forall i :: 0 <= i < |likes.value| ==> likes.value[i].Some?)
    ensures r.Failure? ==> r.error.NullPointer?
    ensures r.Success? ==> r.value == New(address.value, NonNull(likes.value), now)
  {
    if address.None? {
      return Failure(NullPointer("address"));
    }
    if likes.None? {
      return Failure(NullPointer("likes"));
    }
    var i := 0;
    while i < |likes.value|
      invariant 0 <= i <= |likes.value|
      invariant forall j :: 0 <= j < i ==> likes.value[j].Some?
    {
      if likes.value[i].None? {
        return Failure(NullPointer("like"));
      }
      i := i + 1;
    }
    return Success(New(address.value, NonNull(likes.value), now));
  }
}
