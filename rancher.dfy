/** The metadata layer (rancher.go): the per-container cache of control-plane
    metadata, the memoising resolver in front of the control-plane query, and
    the composition of the outbound record. The control-plane answer to the
    `externalId` query is passed in as the candidate list it returns. */
module Rancher {
  import opened Wrappers
  import opened Events
  import opened Logstash

  /** A control-plane container record (go-rancher client.Container), reduced
      to the fields the adapter reads. */
  datatype Candidate = Candidate(
    id: string,
    name: string,
    ip: string,
    hostId: string,
    externalId: string,
    labels: map<string, Json>)

  /** RancherContainer: the orchestration metadata of one container. */
  datatype RancherContainer = RancherContainer(
    name: string,
    ip: string,
    id: string,
    hostId: string,
    dockerId: string,
    labels: map<string, Json>)

  /** RancherInfo: the value cached per container and attached under "rancher". */
  datatype RancherInfo = RancherInfo(container: RancherContainer)

  /** DockerInfo: container descriptors taken from the log event itself. */
  datatype DockerInfo = DockerInfo(name: string, id: string, image: string, hostname: string)

  /** A value of the outbound record (an `interface{}` in the source). */
  datatype Value =
    | Payload(json: Json)               // a member of the decoded JSON payload
    | Text(text: string)                // the raw line under "message", or a field value
    | Docker(docker: DockerInfo)
    | RancherMeta(rancher: Option<RancherInfo>)  // None is a nil *RancherInfo

  const MESSAGE_KEY: string := "message"
  const DOCKER_KEY: string := "docker"
  const RANCHER_KEY: string := "rancher"

  /** Why processMessage produces no record (a panic in the source). */
  datatype ProcessError =
    | MalformedEntry(entry: string)  // a field entry without `=`
    | NilRecord                      // a `null` payload left the record map nil

  /** The first candidate, in list order, whose externalId is `cID`. */
  function FirstMatch(candidates: seq<Candidate>, cID: string): Option<Candidate>
    decreases |candidates|
  {
    if |candidates| == 0 then None
    else if candidates[0].externalId == cID then Some(candidates[0])
    else FirstMatch(candidates[1..], cID)
  }

  /** FirstMatch finds nothing exactly when no candidate matches, and otherwise
      returns a matching candidate that no earlier candidate matches before. */
  lemma {:induction false} FirstMatchIsFirst(candidates: seq<Candidate>, cID: string)
    ensures FirstMatch(candidates, cID).None? <==>
      forall i :: 0 <= i < |candidates| ==> candidates[i].externalId != cID
    ensures FirstMatch(candidates, cID).Some? ==>
      exists i :: 0 <= i < |candidates| && candidates[i] == FirstMatch(candidates, cID).value
        && candidates[i].externalId == cID
        && forall j :: 0 <= j < i ==> candidates[j].externalId != cID
    decreases |candidates|
  {
    if |candidates| > 0 && candidates[0].externalId != cID {
      var rest := candidates[1..];
      FirstMatchIsFirst(rest, cID);
      assert forall i :: 1 <= i < |candidates| ==> candidates[i] == rest[i - 1];
      if FirstMatch(rest, cID).Some? {
        var i :| 0 <= i < |rest| && rest[i] == FirstMatch(rest, cID).value
          && rest[i].externalId == cID
          && forall j :: 0 <= j < i ==> rest[j].externalId != cID;
        assert candidates[i + 1] == rest[i];
      }
    }
  }

  /** GetRancherId: the search over the control plane's answer to the
      `externalId == cID` query. */
  method GetRancherId(cID: string, candidates: seq<Candidate>) returns (r: Option<Candidate>)
    ensures r == FirstMatch(candidates, cID)
  {
    var i := 0;
    while i < |candidates|
      invariant 0 <= i <= |candidates|
      invariant FirstMatch(candidates[i..], cID) == FirstMatch(candidates, cID)
    {
      assert candidates[i..][1..] == candidates[i + 1..];
      if candidates[i].externalId == cID {
        return Some(candidates[i]);
      }
      i := i + 1;
    }
    return None;
  }

  /** The metadata built from a control-plane record for the Docker container `dockerId`. */
  function FromCandidate(candidate: Candidate, dockerId: string): RancherInfo {
    RancherInfo(RancherContainer(candidate.name, candidate.ip, candidate.id,
                                 candidate.hostId, dockerId, candidate.labels))
  }

  /** The process-wide cache cCache and the resolver that fills it. */
  class RancherCache {
    /** Docker container ID -> its metadata (cCache). */
    var entries: map<string, RancherInfo>
    /** How many control-plane queries have been issued (instrumentation only). */
    ghost var queries: nat

    /** Every entry is filed under its own Docker ID. */
    ghost predicate Valid()
      reads this
    {
      forall id :: id in entries ==> entries[id].container.dockerId == id
    }

    constructor ()
      ensures Valid() && entries == map[] && queries == 0
    {
      entries := map[];
      queries := 0;
    }

    /** Cache: files `con` under its Docker ID; every other entry is kept. */
    method Cache(con: RancherInfo)
      requires Valid()
      modifies this`entries
      ensures Valid()
      ensures entries == old(entries)[con.container.dockerId := con]
    {
      entries := entries[con.container.dockerId := con];
    }

    /** ExistsInCache: a scan of the cache's keys for `containerID`. */
    method ExistsInCache(containerID: string) returns (found: bool)
      ensures found <==> containerID in entries
    {
      var keys := entries.Keys;
      while keys != {}
        invariant keys <= entries.Keys
        invariant containerID in entries ==> containerID in keys
        decreases keys
      {
        var k :| k in keys;
        if k == containerID {
          return true;
        }
        keys := keys - {k};
      }
      return false;
    }

    /** GetFromCache: the cached metadata, or nil for an unknown ID. */
    function GetFromCache(cID: string): (r: Option<RancherInfo>)
      reads this
      ensures r.Some? <==> cID in entries
      ensures r.Some? ==> r.value == entries[cID]
    {
      if cID in entries then Some(entries[cID]) else None
    }

    /** DeleteFromCache: removes `cId` and reports whether it is still cached,
        which it never is. */
    method DeleteFromCache(cId: string) returns (stillCached: bool)
      requires Valid()
      modifies this`entries
      ensures Valid()
      ensures entries == old(entries) - {cId}
      ensures !stillCached
    {
      entries := entries - {cId};
      stillCached := ExistsInCache(cId);
    }

    /** GetRancherInfo, the check-then-populate resolver. A cached container is
        answered from the cache with no control-plane query. Otherwise exactly
        one query is made: a matching record is turned into metadata, cached
        under the container ID and returned; no match returns nil and caches
        nothing. `listing` is what the control plane answers. */
    method GetRancherInfo(c: Container, listing: seq<Candidate>) returns (r: Option<RancherInfo>)
      requires Valid()
      modifies this
      ensures Valid()
      ensures c.id in old(entries) ==>
        r == Some(old(entries)[c.id]) && entries == old(entries) && queries == old(queries)
      ensures c.id !in old(entries) ==> queries == old(queries) + 1
      ensures c.id !in old(entries) && FirstMatch(listing, c.id).Some? ==>
        var candidate := FirstMatch(listing, c.id).value;
        && r == Some(RancherInfo(RancherContainer(candidate.name, candidate.ip, candidate.id,
                                                  candidate.hostId, c.id, candidate.labels)))
        && entries == old(entries)[c.id := r.value]
      ensures c.id !in old(entries) && FirstMatch(listing, c.id).None? ==>
        r.None? && entries == old(entries)
    {
      var cached := ExistsInCache(c.id);
      if !cached {
        queries := queries + 1;
        var rcontainer := GetRancherId(c.id, listing);

        if rcontainer.None? {
          var del := DeleteFromCache(c.id);
          if del {
            // the "removed from cache" report: DeleteFromCache never answers true
            assert false;
          }
          return None;
        }

        var info := FromCandidate(rcontainer.value, c.id);
        Cache(info);
        return Some(info);
      }
      return GetFromCache(c.id);
    }
  }

  /** The first layer of the record: the members json.Unmarshal decoded, with
      the raw line written over them under "message" when it reported an error. */
  function Base(data: string, decoded: Unmarshalled): map<string, Value>
    requires decoded.Members?
  {
    var members := map k | k in decoded.members :: Payload(decoded.members[k]);
    if decoded.failed then members[MESSAGE_KEY := Text(data)] else members
  }

  /** `base` with the fields named in `done` written over it. */
  function Overlay(base: map<string, Value>, fields: map<string, string>, done: set<string>): map<string, Value>
    requires done <= fields.Keys
  {
    map k | k in base.Keys + done :: if k in done then Text(fields[k]) else base[k]
  }

  /** The `for k, v := range fields` loop of processMessage: writes every field
      over `base`, in whatever order the keys come. */
  method OverlayFields(base: map<string, Value>, fields: map<string, string>) returns (data: map<string, Value>)
    ensures data == Overlay(base, fields, fields.Keys)
    ensures data.Keys == base.Keys + fields.Keys
    ensures forall k :: k in fields ==> data[k] == Text(fields[k])
    ensures forall k :: k in base && k !in fields ==> data[k] == base[k]
  {
    data := base;
    var pending := fields.Keys;
    while pending != {}
      invariant pending <= fields.Keys
      invariant data == Overlay(base, fields, fields.Keys - pending)
      decreases pending
    {
      var k :| k in pending;
      data := data[k := Text(fields[k])];
      pending := pending - {k};
    }
    assert fields.Keys - pending == fields.Keys;
  }

  /** The record processMessage composes: payload (or message), then the field
      set, then "docker" and "rancher". Each key holds the value of the last
      layer that writes it. */
  function Enriched(data: string, decoded: Unmarshalled, fields: map<string, string>,
                    docker: DockerInfo, rancher: Option<RancherInfo>): (r: map<string, Value>)
    requires decoded.Members?
    ensures r.Keys == decoded.members.Keys + (if decoded.failed then {MESSAGE_KEY} else {})
                      + fields.Keys + {DOCKER_KEY, RANCHER_KEY}
    ensures r[DOCKER_KEY] == Docker(docker) && r[RANCHER_KEY] == RancherMeta(rancher)
    ensures forall k :: k in fields && k != DOCKER_KEY && k != RANCHER_KEY ==> r[k] == Text(fields[k])
    ensures decoded.failed && MESSAGE_KEY !in fields ==> r[MESSAGE_KEY] == Text(data)
    ensures forall k :: k in decoded.members && k !in fields && k != DOCKER_KEY && k != RANCHER_KEY
                        && !(decoded.failed && k == MESSAGE_KEY) ==>
      r[k] == Payload(decoded.members[k])
  {
    Overlay(Base(data, decoded), fields, fields.Keys)[DOCKER_KEY := Docker(docker)][RANCHER_KEY := RancherMeta(rancher)]
  }

  /** processMessage: resolves the container's fields and metadata through the
      two memos, then composes the record. A malformed field declaration aborts
      (a panic in the source) before the metadata is looked up; a `null`
      payload aborts when the first key is written into the nil record map,
      after both memos have been updated. `decoded` is what json.Unmarshal
      leaves for the message's data. */
  method ProcessMessage(message: Message, parser: LogstashParser, cache: RancherCache,
                        default: string, listing: seq<Candidate>, decoded: Unmarshalled)
    returns (r: Result<map<string, Value>, ProcessError>)
    requires cache.Valid()
    modifies parser, cache
    ensures cache.Valid()
    ensures r.Failure? && r.error.MalformedEntry? ==>
      && message.container.id !in old(parser.logstashFields)
      && ParseFields(Declaration(message.container.env, default)) == Failure(r.error.entry)
      && parser.logstashFields == old(parser.logstashFields)
      && parser.parses == old(parser.parses) + 1
      && cache.entries == old(cache.entries) && cache.queries == old(cache.queries)
    ensures (r.Failure? && r.error.NilRecord?) <==>
      decoded.NilMap? && !(r.Failure? && r.error.MalformedEntry?)
    ensures r.Success? ==>
      var c := message.container;
      && decoded.Members?
      && c.id in parser.logstashFields
      && r.value == Enriched(message.data, decoded, parser.logstashFields[c.id],
                             DockerInfo(c.name, c.id, c.image, c.hostname), cache.GetFromCache(c.id))
    ensures message.container.id in old(parser.logstashFields) ==>
      && !(r.Failure? && r.error.MalformedEntry?)
      && parser.logstashFields == old(parser.logstashFields) && parser.parses == old(parser.parses)
    ensures message.container.id !in old(parser.logstashFields) && !(r.Failure? && r.error.MalformedEntry?) ==>
      && ParseFields(Declaration(message.container.env, default)).Success?
      && parser.parses == old(parser.parses) + 1
      && parser.logstashFields == old(parser.logstashFields)[message.container.id :=
        ParseFields(Declaration(message.container.env, default)).value]
    ensures !(r.Failure? && r.error.MalformedEntry?) && message.container.id in old(cache.entries) ==>
      cache.entries == old(cache.entries) && cache.queries == old(cache.queries)
    ensures !(r.Failure? && r.error.MalformedEntry?) && message.container.id !in old(cache.entries) ==>
      && cache.queries == old(cache.queries) + 1
      && cache.entries == match FirstMatch(listing, message.container.id)
                          case None => old(cache.entries)
                          case Some(candidate) =>
                            old(cache.entries)[message.container.id :=
                              FromCandidate(candidate, message.container.id)]
  {
    var c := message.container;
    var dockerInfo := DockerInfo(c.name, c.id, c.image, c.hostname);

    var resolved := parser.GetLogstashFields(c, default);
    if resolved.Failure? {
      return Failure(MalformedEntry(resolved.error));
    }
    var fields := resolved.value;

    var rancherInfo := cache.GetRancherInfo(c, listing);

    if decoded.NilMap? {
      // the first key written into the nil record map panics
      return Failure(NilRecord);
    }
    var data := OverlayFields(Base(message.data, decoded), fields);
    data := data[DOCKER_KEY := Docker(dockerInfo)];
    data := data[RANCHER_KEY := RancherMeta(rancherInfo)];
    return Success(data);
  }

  /** Metadata is resolved once per container: after a successful resolution a
      second one returns the same record without a control-plane query, while
      an unresolved container is queried again. */
  method ResolveTwice(cache: RancherCache, c: Container, listing: seq<Candidate>, laterListing: seq<Candidate>)
    returns (first: Option<RancherInfo>, second: Option<RancherInfo>)
    requires cache.Valid()
    modifies cache
    ensures first.Some? ==> second == first
    ensures c.id in old(cache.entries) ==> cache.queries == old(cache.queries)
    ensures c.id !in old(cache.entries) ==>
      cache.queries == old(cache.queries) + (if first.Some? then 1 else 2)
  {
    first := cache.GetRancherInfo(c, listing);
    second := cache.GetRancherInfo(c, laterListing);
  }
}
