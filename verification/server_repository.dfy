/** `dev.jaqobb.namemc_api.repository.ServerRepository`: servers cached by
    lower-cased address, with a `java.time.Duration` as time-to-live. */
module Repository {
  import opened Lang
  import opened Text
  import opened Uuids
  import opened Chrono
  import opened Caching
  import Data

  class ServerRepository {
    /** `_cacheDuration`, in nanoseconds. */
    const cacheDuration: int
    var servers: map<string, Data.Server>

    /** Every reachable repository: a positive time-to-live, and every server
        stored under its own (lower-case) address. */
    ghost predicate Valid()
      reads this
    {
      cacheDuration >= 1 &&
      forall key :: key in servers ==> servers[key].address == key
    }

    constructor Init(cacheDuration: int)
      requires cacheDuration >= 1
      ensures Valid() && this.cacheDuration == cacheDuration && servers == map[]
    {
      this.cacheDuration := cacheDuration;
      servers := map[];
    }

    /** `new ServerRepository()`: ten minutes. */
    static method Default() returns (repository: ServerRepository)
      ensures fresh(repository) && repository.Valid() && repository.servers == map[]
      ensures repository.cacheDuration == 600_000_000_000
    {
      repository := new ServerRepository.Init(10 * NanosPerUnit(Minutes));
    }

    /** `new ServerRepository(duration, unit)`: a duration below 1 is refused,
        and so is a unit of estimated length (by `Duration.of`). */
    static method Create(duration: int, unit: ChronoUnit) returns (r: Result<ServerRepository, Exception>)
      ensures duration < 1 ==> r == Failure(IllegalArgument("duration cannot be smaller than 1"))
      ensures duration >= 1 && IsEstimated(unit) ==> r.Failure? && r.error.UnsupportedTemporalType?
      ensures r.Success? <==> duration >= 1 && !IsEstimated(unit)
      ensures r.Success? ==>
        fresh(r.value) && r.value.Valid() && r.value.servers == map[] &&
        r.value.cacheDuration == duration * NanosPerUnit(unit)
    {
      if duration < 1 {
        return Failure(IllegalArgument("duration cannot be smaller than 1"));
      }
      var nanos := DurationOf(duration, unit);
      if nanos.Failure? {
        return Failure(nanos.error);
      }
      var repository := new ServerRepository.Init(nanos.value);
      return Success(repository);
    }

    /** `isServerValid(server)`: valid while less than `cacheDuration` has
        elapsed between the capture instant and `now` (both in epoch
        milliseconds). */
    predicate IsServerValid(server: Data.Server, now: int)
      ensures IsServerValid(server, now) <==> now * 1_000_000 < server.cacheTime * 1_000_000 + cacheDuration
    {
      Fresh(server.cacheTime * 1_000_000, now * 1_000_000, cacheDuration)
    }

    /** A server that is no longer valid never becomes valid again. */
    lemma ExpiryIsPermanent(server: Data.Server, t1: int, t2: int)
      requires t1 <= t2 && !IsServerValid(server, t1)
      ensures !IsServerValid(server, t2)
    {
      StaleStaysStale(server.cacheTime * 1_000_000, t1 * 1_000_000, t2 * 1_000_000, cacheDuration);
    }

    /** `getServers()`, keyed: the values of this map are the collection, and
        every server is listed under its own address. */
    function GetServers(): (all: map<string, Data.Server>)
      requires Valid()
      reads this
      ensures forall k :: k in all ==> all[k].address == k
    {
      servers
    }

    /** `getValidServers(now)`: entries of the cache that are valid at `now`. */
    function GetValidServers(now: int): (valid: map<string, Data.Server>)
      reads this
      ensures IsSubMap(valid, servers)
      ensures forall k :: k in valid ==> IsServerValid(valid[k], now)
    {
      map k | k in servers && IsServerValid(servers[k], now) :: servers[k]
    }

    /** `getInvalidServers(now)`: entries of the cache that are not valid at `now`. */
    function GetInvalidServers(now: int): (invalid: map<string, Data.Server>)
      reads this
      ensures IsSubMap(invalid, servers)
      ensures forall k :: k in invalid ==> !IsServerValid(invalid[k], now)
    {
      map k | k in servers && !IsServerValid(servers[k], now) :: servers[k]
    }

    /** Every cached server is listed as valid or as invalid, never both. */
    lemma ListingsPartition(now: int)
      requires Valid()
      ensures GetValidServers(now).Keys !! GetInvalidServers(now).Keys
      ensures GetValidServers(now) + GetInvalidServers(now) == GetServers()
    {
    }

    /** `addServer(server)`: stores the server under its lower-cased address
        only if that key is free; an existing entry stays as it was. */
    method AddServer(server: Data.Server)
      requires Valid()
      modifies this
      ensures Valid()
      ensures ToLower(server.address) in old(servers) ==> servers == old(servers)
      ensures ToLower(server.address) !in old(servers) ==>
        servers == old(servers)[ToLower(server.address) := server]
    {
      var key := ToLower(server.address);
      ToLowerFixesLowerCase(server.address);
      if key !in servers {
        servers := servers[key := server];
      }
    }

    /** `removeServer(server)`: drops exactly the entry under the server's
        lower-cased address. */
    method RemoveServer(server: Data.Server)
      requires Valid()
      modifies this
      ensures Valid()
      ensures servers == old(servers) - {ToLower(server.address)}
      ensures forall k :: k in servers ==> !EqualsIgnoreCase(servers[k].address, server.address)
    {
      servers := servers - {ToLower(server.address)};
      forall k | k in servers
        ensures !EqualsIgnoreCase(servers[k].address, server.address)
      {
        SameKeyIffEqualIgnoringCase(k, server.address);
        ToLowerFixesLowerCase(k);
        ToLowerFixesLowerCase(server.address);
      }
    }

    /** The synchronous part of `cacheServer(address, recache, callback)`: a
        cached server valid at `now` is passed to the callback when `recache`
        is not set, and then nothing is fetched; otherwise a fetch is
        dispatched. Exactly one of the two happens. */
    function Request(address: string, recache: bool, now: int): (r: Action<Data.Server>)
      reads this
      ensures r.fetch <==> r.answer.None?
      ensures r.answer.Some? ==>
        !recache && ToLower(address) in servers && servers[ToLower(address)] == r.answer.value &&
        IsServerValid(r.answer.value, now)
      ensures r.fetch ==>
        recache || ToLower(address) !in servers || !IsServerValid(servers[ToLower(address)], now)
    {
      var key := ToLower(address);
      if key in servers && IsServerValid(servers[key], now) && !recache then Action(Some(servers[key]), false)
      else Action(None, true)
    }

    /** Two addresses that differ only in case are looked up under the same
        entry. */
    lemma RequestIgnoresCase(a: string, b: string, recache: bool, now: int)
      requires EqualsIgnoreCase(a, b)
      ensures Request(a, recache, now) == Request(b, recache, now)
    {
      SameKeyIffEqualIgnoringCase(a, b);
    }

    /** The dispatched task of `cacheServer`, finishing at `now`, with `parse`
        standing for `UUID.fromString`: a downloaded array whose elements all
        parse becomes a server for the lower-cased address, which replaces the
        entry under that address and is passed to the callback; any exception
        (download, JSON, an element that does not parse) is passed to the
        callback and the cache is left alone. */
    method Complete(address: string, outcome: Fetch<seq<string>>, parse: UuidParser, now: int)
      returns (delivery: Delivery<Data.Server>)
      requires Valid()
      modifies this
      ensures Valid()
      ensures outcome.Fetched? && DecodeAll(outcome.payload, parse).Success? ==>
        var server := Data.New(ToLower(address), DecodeAll(outcome.payload, parse).value, now);
        servers == old(servers)[ToLower(address) := server] && delivery == Delivered(server)
      ensures outcome.Fetched? && DecodeAll(outcome.payload, parse).Failure? ==>
        servers == old(servers) && delivery == Failed(InvalidUuid(DecodeAll(outcome.payload, parse).error))
      ensures outcome.IoFailure? ==> servers == old(servers) && delivery == Failed(Io(outcome.message))
      ensures outcome.RuntimeFailure? ==> servers == old(servers) && delivery == Failed(Runtime(outcome.message))
    {
      var key := ToLower(address);
      match outcome
      case Fetched(items) =>
        match DecodeAll(items, parse) {
          case Success(likes) =>
            var server := Data.New(key, likes, now);
            ToLowerIdempotent(address);
            servers := servers[key := server];
            delivery := Delivered(server);
          case Failure(index) =>
            delivery := Failed(InvalidUuid(index));
        }
      case IoFailure(message) =>
        delivery := Failed(Io(message));
      case RuntimeFailure(message) =>
        delivery := Failed(Runtime(message));
    }

    /** `clearServers()`. */
    method ClearServers()
      requires Valid()
      modifies this
      ensures Valid() && servers == map[] && GetServers() == map[]
    {
      servers := map[];
    }
  }

  /** A repository with a time-to-live of 100 milliseconds fetches a server at
      instant 0: it is valid at 50 and invalid at 150, a lookup at 50 is
      answered from the cache, one at 150 dispatches a new fetch; the stored
      likes keep the array's order. */
  method ExpiryScenario(address: string, items: seq<string>, parse: UuidParser)
    returns (likes: seq<Uuid>, validAt50: bool, validAt150: bool, at50: Action<Data.Server>, at150: Action<Data.Server>)
    requires forall i :: 0 <= i < |items| ==> parse(items[i]).Some?
    ensures |likes| == |items| && forall i :: 0 <= i < |items| ==> parse(items[i]) == Some(likes[i])
    ensures validAt50 && !validAt150
    ensures at50 == Action(Some(Data.New(address, likes, 0)), false)
    ensures at150 == Action(None, true)
  {
    var created := ServerRepository.Create(100, Millis);
    var repository := created.value;
    var delivery := repository.Complete(address, Fetched(items), parse, 0);
    var server := delivery.record;
    likes := server.likes;
    ToLowerIdempotent(address);
    validAt50 := repository.IsServerValid(server, 50);
    validAt150 := repository.IsServerValid(server, 150);
    at50 := repository.Request(address, false, 50);
    at150 := repository.Request(address, false, 150);
  }
}
