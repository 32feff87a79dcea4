# logspout-amqp-rancher enrichment layer, modelled in Dafny

The adapter receives log lines from logspout's router, enriches each one and
publishes it to an AMQP exchange. This project models the stateful enrichment
layer:

- **Field resolver** (`logstash.go`, `logstash.dfy`): `GetLogstashFields`
  picks the `LOGSTASH_FIELDS` declaration. That is the text after the prefix of
  the container's last `LOGSTASH_FIELDS=` environment entry, or else the
  process default. It splits the declaration on `,` and then on `=`, and
  memoises the resulting map per container ID in `LogstashParser.logstashFields`.
  It is a class with a map field and a method with the source's two loops.
- **Metadata cache and resolver** (`rancher.go`, `rancher.dfy`): the
  process-wide `cCache` becomes the `RancherCache` class. Its methods are
  `Cache`, `ExistsInCache` (the key scan), `DeleteFromCache` and the memoising
  `GetRancherInfo`; `GetFromCache` is a function over it. `GetRancherId` is the
  first-match search over the control plane's answer.
- **Record composition** (`processMessage`): payload members (plus `message`
  when decoding reported an error), then the field set, then `docker` and
  `rancher`. The key written last wins.

Supporting modules: `go_strings.dfy` models the Go `strings` functions used
(`HasPrefix`, `TrimPrefix`, `Split`, with `Join` as the partner of `Split`).
`events.dfy` holds the router message, the Docker container and the JSON value
shape. `wrappers.dfy` holds `Option` (a Go pointer that may be nil) and
`Result`.

External inputs become parameters:
- the control plane's answer to the `externalId` list query is `listing: seq<Candidate>`;
- `os.Getenv("LOGSTASH_FIELDS")` is `default`;
- what `json.Unmarshal` leaves in the record map is `decoded: Unmarshalled`.
  `NilMap` is the nil map a `null` payload produces. `Members(members, failed)`
  holds the decoded members and whether an error was reported. A syntax or
  type error leaves no members. A number out of float64 range keeps the other
  members, so they end up beside `message`.

The ghost counters `RancherCache.queries` and `LogstashParser.parses` count
control-plane queries and declaration parses. They let the contracts say that
a hit makes no query and no parse, and that a miss makes exactly one.

Three behaviours of the code shape the model:
- An entry without `=` makes the code index `sp[1]` out of range, a panic.
  The model returns `Failure(entry)` for the first such entry and memoises
  nothing. The entry is not skipped.
- A failed lookup never evicts anything. The query only runs when the ID is
  not cached, so `DeleteFromCache` has nothing to remove. It also always
  answers `false`, so the "removed from cache" branch is unreachable
  (`assert false` in `GetRancherInfo`).
- A `null` payload leaves the record map nil, and the first key written into
  it panics. This happens after both memos have been updated. The model
  returns `Failure(NilRecord)` with both memos in their updated state.

## Model

| member | source | states |
|---|---|---|
| `GoStrings.TrimPrefix` | logstash.go:19-20 | when the prefix is present, prefix + result is the input; otherwise the input is unchanged |
| `GoStrings.Split` | logstash.go:25-26 | there is at least one piece and no piece contains the separator |
| `GoStrings.JoinSplit` | logstash.go:25 | joining the pieces with the separator gives back the split string |
| `GoStrings.SplitJoin` | logstash.go:25 | separator-free pieces survive join followed by split |
| `GoStrings.SplitHasSecondPiece` | logstash.go:26-27 | `sp[1]` exists exactly when the entry contains `=` |
| `GoStrings.SplitAtSeparator` | logstash.go:26-27 | the text before the first separator is the first piece; the rest is split on its own |
| `Logstash.DeclarationDefault` | logstash.go:15-22 | with no `LOGSTASH_FIELDS=` entry in the container env, the process default is used |
| `Logstash.DeclarationLastOverride` | logstash.go:18-22 | with such entries, the last one wins and contributes the text after the prefix |
| `Logstash.ParseFields` | logstash.go:24-29 | an empty declaration yields the empty field map |
| `Logstash.ParseEntriesFailure` | logstash.go:25-27 | the parse fails exactly when some entry has no `=`, and it reports the first such entry |
| `Logstash.ParseEntriesKeys` | logstash.go:25-29 | the keys of a successful parse are exactly the entries' `sp[0]` parts |
| `Logstash.ParseEntriesLastWins` | logstash.go:25-29 | a key maps to the `sp[1]` of the last entry that has that key |
| `Logstash.ParseEntriesFailureSticks` | logstash.go:25-27 | once an entry fails, the whole parse fails with that entry |
| `Logstash.ParseEntriesAppend` | logstash.go:25-29 | one more well-formed entry sets its key to its value over the earlier map |
| `Logstash.EntryParts` | logstash.go:26-27 | `k=v` has key k and value v; in `k=v=t` the value is still v |
| `Logstash.ParseTwoEntries` | logstash.go:24-29 | `k1=v1,k2=v2` parses to k1 -> v1 then k2 -> v2 |
| `Logstash.ParseTwoFields` | logstash.go:24-29 | `foo=bar,baz=qux` parses to {foo: bar, baz: qux} |
| `Logstash.ParseDuplicateKey` | logstash.go:28 | `k=1,k=2` parses to {k: 2}: the later duplicate overwrites |
| `Logstash.ParseValueStopsAtSecondEquals` | logstash.go:26-27 | `a=b=c` parses to {a: b} |
| `Logstash.ParseTrailingCommaFails` | logstash.go:25-27 | `foo=bar,` fails on the empty entry after the comma |
| `Logstash.LogstashParser.constructor` | logstash.go:38-42 | a new parser has an empty memo and has parsed nothing |
| `Logstash.LogstashParser.GetLogstashFields` | logstash.go:10-35 | a memoised ID returns its stored map, changes nothing and parses nothing; otherwise exactly one parse, of the declaration in force, gives the result; on success the memo gains exactly that ID -> map, on failure the memo is unchanged |
| `Logstash.ResolveTwice` | logstash.go:11-13 | after a successful resolution, a later one for the same ID returns the same map without parsing, even if env and default changed; a failed one is parsed again |
| `Rancher.FirstMatchIsFirst` | rancher.go:53-58 | the search finds nothing exactly when no candidate's ExternalId matches; otherwise it finds a matching candidate with no match before it |
| `Rancher.GetRancherId` | rancher.go:41-59 | the loop returns the first candidate in list order whose ExternalId equals the ID, or nil |
| `Rancher.RancherCache.constructor` | rancher.go:24 | the cache starts empty, with no queries made |
| `Rancher.RancherCache.Cache` | rancher.go:62-64 | stores the record under its own DockerID; every other entry is unchanged |
| `Rancher.RancherCache.ExistsInCache` | rancher.go:67-75 | the key scan answers true exactly when the ID is a key of the cache |
| `Rancher.RancherCache.GetFromCache` | rancher.go:78-80 | a cached ID yields its record, an unknown ID yields nil |
| `Rancher.RancherCache.DeleteFromCache` | rancher.go:82-86 | the ID is removed, other entries are unchanged, and the answer is always false |
| `Rancher.RancherCache.GetRancherInfo` | rancher.go:89-134 | a hit returns the cached record with no query and no change; a miss makes exactly one query; with a match it returns and caches the record copied from the candidate with DockerID = the container ID; with no match it returns nil and the cache is unchanged |
| `Rancher.OverlayFields` | rancher.go:156-158 | every field overwrites the same-named key; other keys keep their value, whatever the iteration order |
| `Rancher.Enriched` | rancher.go:148-163 | `docker` and `rancher` are always present and written last; fields win over payload keys; when Unmarshal reported an error, the raw data sits under `message` beside any members it decoded, unless a field of that name replaces it |
| `Rancher.ProcessMessage` | rancher.go:136-164 | the record is the composition of the payload, the memoised fields and the cached metadata; a malformed declaration aborts before any metadata query; a `null` payload aborts after both memos are updated; both memos and both counters move as the resolvers specify |
| `Rancher.ResolveTwice` | rancher.go:93-133 | a successful resolution is repeated from the cache with no query; a failed one is queried again |

## Left out

- `amqp.go` (`NewAmqpAdapter`, `Stream`) is not part of this model. It covers the broker connection, publishing and the receive loop, which are I/O. Skipping a message that fails to serialize is therefore not modelled.
- `main.go` is not part of this model. It covers adapter registration, `failOnError`'s process halt and `getEnv`.
- The Rancher client (rancher.go:13-38) and the HTTP list call (rancher.go:43-47) are left out. The list result is the `listing` parameter. The error path at rancher.go:48-50, which would go on to read a nil result, is not modelled.
- JSON decoding and encoding are left out. Decoding is the `decoded` oracle, and serialisation is not modelled. Numbers keep their literal text instead of Go's float64.
- `Rancher.ProcessMessage` does not distinguish where a `null` payload panics (the field loop or the `docker` write). Both happen after the memos are updated and before any record is returned.
- `os.Getenv` and logging are left out. The environment default is a parameter, and log output has no observable effect.
- Concurrency is left out. Both memos are unsynchronised globals used by one sequential stream.
- `Rancher.RancherCache.GetRancherInfo` requires `Valid()` (every entry filed under its own DockerID). The source always keeps this invariant, because `Cache` is its only writer.
