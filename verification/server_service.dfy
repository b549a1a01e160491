/** `co.jaqobb.namemc.api.server.ServerService`: servers cached by lower-cased
    ip, with a time-to-live given as a duration and a `TimeUnit`. */
module ServerApi {
  import opened Lang
  import opened Text
  import opened Uuids
  import opened TimeUnits
  import opened Caching

  /** A cached server as the service sees it: the ip exactly as the caller gave
      it, the decoded likes and the instant (epoch milliseconds) it was built. */
  datatype Server = Server(ip: string, likes: seq<Uuid>, cacheTime: int)

  class ServerService {
    const duration: nat
    const unit: TimeUnit
    var servers: map<string, Server>

    /** Every reachable service: each server is stored under the lower-cased
        form of the ip it was fetched for. */
    ghost predicate Valid()
      reads this
    {
      forall key :: key in servers ==> key == ToLower(servers[key].ip)
    }

    /** The private constructor; both factories pass it a duration of at least 1. */
    constructor (duration: nat, unit: TimeUnit)
      requires duration >= 1
      ensures Valid() && this.duration == duration && this.unit == unit && servers == map[]
    {
      this.duration := duration;
      this.unit := unit;
      servers := map[];
    }

    /** `ofDefault()`: ten minutes. */
    static method OfDefault() returns (service: ServerService)
      ensures fresh(service) && service.Valid() && service.servers == map[]
      ensures service.duration == 10 && service.unit == Minutes
      ensures service.DurationMillis() == 600_000
    {
      service := new ServerService(10, Minutes);
    }

    /** `ofCustom(duration, unit)`: a duration below 1 is refused before the
        unit is checked for null. */
    static method OfCustom(duration: int, unit: Option<TimeUnit>) returns (r: Result<ServerService, Exception>)
      ensures duration < 1 ==> r == Failure(IllegalArgument("duration < 1"))
      ensures duration >= 1 && unit.None? ==> r.Failure? && r.error.NullPointer?
      ensures r.Success? <==> duration >= 1 && unit.Some?
      ensures r.Success? ==>
        fresh(r.value) && r.value.Valid() && r.value.duration == duration && r.value.unit == unit.value && r.value.servers == map[]
    {
      if duration < 1 {
        return Failure(IllegalArgument("duration < 1"));
      }
      if unit.None? {
        return Failure(NullPointer(""));
      }
      var service := new ServerService(duration, unit.value);
      return Success(service);
    }

    /** `getDurationMillis()`. */
    function DurationMillis(): nat
    {
      ToMillis(duration, unit)
    }

    /** `isServerValid(server)`: a missing server is never valid; a present one
        is valid until `DurationMillis()` after its capture. */
    predicate IsServerValid(server: Option<Server>, now: int)
      ensures IsServerValid(server, now) <==>
        server.Some? && now < server.value.cacheTime + DurationMillis()
    {
      server.Some? && Fresh(server.value.cacheTime, now, DurationMillis())
    }

    /** A server that is no longer valid never becomes valid again. */
    lemma ExpiryIsPermanent(server: Server, t1: int, t2: int)
      requires t1 <= t2 && !IsServerValid(Some(server), t1)
      ensures !IsServerValid(Some(server), t2)
    {
      StaleStaysStale(server.cacheTime, t1, t2, DurationMillis());
    }

    /** `servers.get(key)`: `None` for an absent key. */
    function Get(key: string): Option<Server>
      reads this
    {
      if key in servers then Some(servers[key]) else None
    }

    /** `getServers()`, keyed: the values of this map are the collection, and
        every server is listed under its lower-cased ip. */
    function GetServers(): (all: map<string, Server>)
      requires Valid()
      reads this
      ensures forall k :: k in all ==> k == ToLower(all[k].ip)
    {
      servers
    }

    /** `getValidServers(now)`: entries of the cache that are valid at `now`. */
    function GetValidServers(now: int): (valid: map<string, Server>)
      reads this
      ensures IsSubMap(valid, servers)
      ensures forall k :: k in valid ==> IsServerValid(Some(valid[k]), now)
    {
      map k | k in servers && IsServerValid(Some(servers[k]), now) :: servers[k]
    }

    /** `getInvalidServers(now)`: entries of the cache that are not valid at `now`. */
    function GetInvalidServers(now: int): (invalid: map<string, Server>)
      reads this
      ensures IsSubMap(invalid, servers)
      ensures forall k :: k in invalid ==> !IsServerValid(Some(invalid[k]), now)
    {
      map k | k in servers && !IsServerValid(Some(servers[k]), now) :: servers[k]
    }

    /** Every cached server is listed as valid or as invalid, never both. */
    lemma ListingsPartition(now: int)
      requires Valid()
      ensures GetValidServers(now).Keys !! GetInvalidServers(now).Keys
      ensures GetValidServers(now) + GetInvalidServers(now) == GetServers()
    {
    }

    /** The synchronous part of `getServer(ip, recache, callback)`: a null ip
        throws; otherwise a cached server valid at `now` is passed to the
        callback unless `recache` is set, and, since that branch does not
        return, a fetch is dispatched on every call. */
    function Request(ip: Option<string>, recache: bool, now: int): (r: Result<Action<Server>, Exception>)
      reads this
      ensures ip.None? <==> r.Failure?
      ensures r.Success? ==> r.value.fetch
      ensures r.Success? && r.value.answer.Some? ==>
        !recache && Get(ToLower(ip.value)) == r.value.answer && IsServerValid(r.value.answer, now)
      ensures r.Success? && r.value.answer.None? ==>
        recache || !IsServerValid(Get(ToLower(ip.value)), now)
    {
      if ip.None? then Failure(NullPointer("ip"))
      else
        var server := Get(ToLower(ip.value));
        Success(Action(if IsServerValid(server, now) && !recache then server else None, true))
    }

    /** Two ips that differ only in case are looked up under the same entry. */
    lemma RequestIgnoresCase(a: string, b: string, recache: bool, now: int)
      requires EqualsIgnoreCase(a, b)
      ensures Request(Some(a), recache, now) == Request(Some(b), recache, now)
    {
      SameKeyIffEqualIgnoringCase(a, b);
    }

    /** The dispatched task of `getServer`, finishing at `now`: a fetched server
        (its ip as given) replaces the entry under the lower-cased ip and is
        passed to the callback; an `IOException` is passed to the callback and
        the cache is left alone; any other exception escapes the task, so the
        callback is never called and the cache is left alone. */
    method Complete(ip: string, outcome: Fetch<seq<Uuid>>, now: int) returns (delivery: Option<Delivery<Server>>)
      requires Valid()
      modifies this
      ensures Valid()
      ensures outcome.Fetched? ==>
        servers == old(servers)[ToLower(ip) := Server(ip, outcome.payload, now)] &&
        delivery == Some(Delivered(Server(ip, outcome.payload, now)))
      ensures outcome.IoFailure? ==> servers == old(servers) && delivery == Some(Failed(Io(outcome.message)))
      ensures outcome.RuntimeFailure? ==> servers == old(servers) && delivery == None
    {
      match outcome
      case Fetched(likes) =>
        var server := Server(ip, likes, now);
        servers := servers[ToLower(ip) := server];
        delivery := Some(Delivered(server));
      case IoFailure(message) =>
        delivery := Some(Failed(Io(message)));
      case RuntimeFailure(_) =>
        delivery := None;
    }

    /** `clearServers()`. */
    method ClearServers()
      requires Valid()
      modifies this
      ensures Valid() && servers == map[] && GetServers() == map[]
    {
      servers := map[];
    }
  }

  /** One `getServer` call on a server cached at `t` and still valid: the
      callback receives the cached server at once and then, when the fetch that
      is dispatched anyway completes, the fetched one. */
  method HitAnswersTwice(ip: string, likes: seq<Uuid>, t: int, now: int, later: int)
    returns (first: Action<Server>, second: Option<Delivery<Server>>)
    requires t <= now < t + 600_000
    ensures first == Action(Some(Server(ip, likes, t)), true)
    ensures second == Some(Delivered(Server(ip, likes, later)))
  {
    var service := ServerService.OfDefault();
    var _ := service.Complete(ip, Fetched(likes), t);
    var r := service.Request(Some(ip), false, now);
    first := r.value;
    second := service.Complete(ip, Fetched(likes), later);
  }

  /** A duration shorter than a millisecond is accepted but truncates to a
      zero time-to-live, so no server captured at or before `now` is ever
      valid. */
  lemma SubMillisecondDurationNeverValid(service: ServerService, server: Server, now: int)
    requires service.unit == Nanoseconds && service.duration < 1_000_000
    requires server.cacheTime <= now
    ensures !service.IsServerValid(Some(server), now)
  {
  }
}
