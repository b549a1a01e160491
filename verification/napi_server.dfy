/** `co.jaqobb.napi.data.Server`: an immutable server record built from the
    JSON array of liker ids, keeping the address verbatim. */
module NapiData {
  import opened Lang
  import opened Uuids

  /** Address as given, the likers' ids in array order, and the capture instant
      in epoch milliseconds; no field changes after construction. */
  datatype Server = Server(address: string, likes: seq<Uuid>, cacheTime: int)
  {
    /** `getLikes()`: exactly the ids for which `hasLiked` answers true. */
    function GetLikes(): (result: seq<Uuid>)
      ensures forall u :: u in result <==> HasLiked(Some(u)) == Success(true)
    {
      likes
    }

    /** `hasLiked(uniqueId)`: a null id throws; otherwise whether some like
        is that id. */
    function HasLiked(uniqueId: Option<Uuid>): (r: Result<bool, Exception>)
      ensures uniqueId.None? <==> r == Failure(NullPointer("uniqueId cannot be null"))
      ensures r.Success? ==> (r.value <==> exists i :: 0 <= i < |likes| && likes[i] == uniqueId.value)
    {
      if uniqueId.None? then Failure(NullPointer("uniqueId cannot be null"))
      else Success(uniqueId.value in likes)
    }

    /** `equals(object)`: equal to no null reference, and to a server exactly
        when the two are the same value. */
    function Equals(other: Option<Server>): (r: bool)
      ensures r <==> other == Some(this)
    {
      other.Some? && cacheTime == other.value.cacheTime &&
      address == other.value.address && likes == other.value.likes
    }
  }

  /** The constructor `Server(address, array)` run at instant `now`, with
      `parse` standing for `UUID.fromString`: a null address, then a null
      array, throws; otherwise every element is parsed in order, the first one
      that does not parse throws, and the likes keep the array's length and
      order (duplicates included). The address is not normalised. */
  function New(address: Option<string>, items: Option<seq<string>>, parse: UuidParser, now: int): (r: Result<Server, Exception>)
    ensures address.None? ==> r == Failure(NullPointer("address cannot be null"))
    ensures address.Some? && items.None? ==> r == Failure(NullPointer("array cannot be null"))
    ensures address.Some? && items.Some? ==>
      (r.Success? <==> forall i :: 0 <= i < |items.value| ==> parse(items.value[i]).Some?)
    ensures address.Some? && items.Some? && r.Failure? ==>
      r.error.InvalidUuid? && r.error.index < |items.value| && parse(items.value[r.error.index]).None? &&
      forall i :: 0 <= i < r.error.index ==> parse(items.value[i]).Some?
    ensures r.Success? ==>
      r.value.address == address.value && r.value.cacheTime == now &&
      |r.value.likes| == |items.value| &&
      forall i :: 0 <= i < |items.value| ==> parse(items.value[i]) == Some(r.value.likes[i])
  {
    if address.None? then Failure(NullPointer("address cannot be null"))
    else if items.None? then Failure(NullPointer("array cannot be null"))
    else
      match DecodeAll(items.value, parse)
      case Success(likes) => Success(Server(address.value, likes, now))
      case Failure(index) => Failure(InvalidUuid(index))
  }
}
