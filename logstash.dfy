/** The field resolver (logstash.go): works out the static key/value fields to
    attach to every record of a container, from the container's own
    `LOGSTASH_FIELDS=` environment entry or the process-wide default, and
    memoises the result per container ID. */
module Logstash {
  import opened Wrappers
  import opened GoStrings
  import opened Events

  /** The environment entry prefix that declares a container's own fields. */
  const FIELDS_PREFIX: string := "LOGSTASH_FIELDS="

  /** The declaration in force for a container environment `env`: the text after
      the prefix of the last entry carrying it, else the process default. */
  function Declaration(env: seq<string>, default: string): string
    decreases |env|
  {
    if |env| == 0 then default
    else if HasPrefix(env[|env| - 1], FIELDS_PREFIX) then TrimPrefix(env[|env| - 1], FIELDS_PREFIX)
    else Declaration(env[..|env| - 1], default)
  }

  /** Without an override entry the process default is used. */
  lemma {:induction false} DeclarationDefault(env: seq<string>, default: string)
    requires forall i :: 0 <= i < |env| ==> !HasPrefix(env[i], FIELDS_PREFIX)
    ensures Declaration(env, default) == default
    decreases |env|
  {
    if |env| > 0 {
      DeclarationDefault(env[..|env| - 1], default);
    }
  }

  /** With override entries, the last one wins and contributes the text after the prefix. */
  lemma {:induction false} DeclarationLastOverride(env: seq<string>, default: string, i: nat)
    requires i < |env| && HasPrefix(env[i], FIELDS_PREFIX)
    requires forall j :: i < j < |env| ==> !HasPrefix(env[j], FIELDS_PREFIX)
    ensures Declaration(env, default) == env[i][|FIELDS_PREFIX|..]
    ensures FIELDS_PREFIX + Declaration(env, default) == env[i]
    decreases |env|
  {
    if i < |env| - 1 {
      DeclarationLastOverride(env[..|env| - 1], default, i);
    }
  }

  /** The key of a `key=value` entry: the text before the first `=`. */
  function EntryKey(entry: string): string {
    Split(entry, '=')[0]
  }

  /** The value of an entry: the text between the first and the second `=`. */
  function EntryValue(entry: string): string
    requires '=' in entry
  {
    SplitHasSecondPiece(entry, '=');
    Split(entry, '=')[1]
  }

  /** Parsing the comma-separated entries in order into a field map; a later
      entry overwrites an earlier one with the same key. The source indexes the
      second part of every entry unconditionally, so the first entry without `=`
      aborts the whole parse: Failure carries that entry. */
  function ParseEntries(entries: seq<string>): Result<map<string, string>, string>
    decreases |entries|
  {
    if |entries| == 0 then Success(map[])
    else
      var last := entries[|entries| - 1];
      match ParseEntries(entries[..|entries| - 1])
      case Failure(bad) => Failure(bad)
      case Success(fields) =>
        var sp := Split(last, '=');
        if |sp| < 2 then Failure(last) else Success(fields[sp[0] := sp[1]])
  }

  /** The field map declared by `decl`; an empty declaration declares no fields. */
  function ParseFields(decl: string): (r: Result<map<string, string>, string>)
    ensures decl == "" ==> r == Success(map[])
  {
    if |decl| > 0 then ParseEntries(Split(decl, ',')) else Success(map[])
  }

  /** Once a prefix of the entries fails, the whole parse fails with the same entry. */
  lemma {:induction false} ParseEntriesFailureSticks(entries: seq<string>, n: nat)
    requires n <= |entries|
    requires ParseEntries(entries[..n]).Failure?
    ensures ParseEntries(entries) == ParseEntries(entries[..n])
    decreases |entries| - n
  {
    if n < |entries| {
      assert entries[..n + 1][..n] == entries[..n];
      ParseEntriesFailureSticks(entries, n + 1);
    } else {
      assert entries[..n] == entries;
    }
  }

  /** The parse fails exactly when some entry has no `=`, and then it reports
      the first such entry. */
  lemma {:induction false} ParseEntriesFailure(entries: seq<string>)
    ensures ParseEntries(entries).Failure? <==> exists i :: 0 <= i < |entries| && '=' !in entries[i]
    ensures ParseEntries(entries).Failure? ==>
      exists i :: 0 <= i < |entries| && entries[i] == ParseEntries(entries).error
        && '=' !in entries[i] && forall j :: 0 <= j < i ==> '=' in entries[j]
    decreases |entries|
  {
    if |entries| > 0 {
      var n := |entries| - 1;
      var init := entries[..n];
      ParseEntriesFailure(init);
      SplitHasSecondPiece(entries[n], '=');
      assert forall i :: 0 <= i < n ==> init[i] == entries[i];
      if ParseEntries(init).Failure? {
        var i :| 0 <= i < n && init[i] == ParseEntries(init).error
          && '=' !in init[i] && forall j :: 0 <= j < i ==> '=' in init[j];
        assert entries[i] == ParseEntries(entries).error;
      } else if '=' !in entries[n] {
        assert forall j :: 0 <= j < n ==> '=' in entries[j];
      }
    }
  }

  /** The keys of a successful parse are exactly the entries' keys. */
  lemma {:induction false} ParseEntriesKeys(entries: seq<string>, k: string)
    requires ParseEntries(entries).Success?
    ensures k in ParseEntries(entries).value <==> exists i :: 0 <= i < |entries| && EntryKey(entries[i]) == k
    decreases |entries|
  {
    if |entries| > 0 {
      var n := |entries| - 1;
      var init := entries[..n];
      ParseEntriesKeys(init, k);
      assert forall i :: 0 <= i < n ==> init[i] == entries[i];
      if exists i :: 0 <= i < |entries| && EntryKey(entries[i]) == k {
        var i :| 0 <= i < |entries| && EntryKey(entries[i]) == k;
        if i < n {
          assert EntryKey(init[i]) == k;
        }
      }
    }
  }

  /** Later entries win: a key maps to the value of the last entry carrying it. */
  lemma {:induction false} ParseEntriesLastWins(entries: seq<string>, i: nat)
    requires ParseEntries(entries).Success?
    requires i < |entries|
    requires forall j :: i < j < |entries| ==> EntryKey(entries[j]) != EntryKey(entries[i])
    ensures '=' in entries[i]
    ensures EntryKey(entries[i]) in ParseEntries(entries).value
    ensures ParseEntries(entries).value[EntryKey(entries[i])] == EntryValue(entries[i])
    decreases |entries|
  {
    var n := |entries| - 1;
    var init := entries[..n];
    SplitHasSecondPiece(entries[n], '=');
    if i < n {
      assert init[i] == entries[i];
      ParseEntriesLastWins(init, i);
    }
  }

  /** `key=value` splits into its key and its value; a third `=`-part is dropped. */
  lemma EntryParts(key: string, value: string, tail: string)
    requires '=' !in key && '=' !in value
    ensures EntryKey(key + "=" + value) == key && EntryValue(key + "=" + value) == value
    ensures EntryKey(key + "=" + value + "=" + tail) == key
    ensures EntryValue(key + "=" + value + "=" + tail) == value
  {
    SplitAtSeparator(key, value, '=');
    SplitNoSeparator(value, '=');
    assert key + "=" + value + "=" + tail == key + ['='] + (value + ['='] + tail);
    SplitAtSeparator(key, value + ['='] + tail, '=');
    SplitAtSeparator(value, tail, '=');
  }

  /** One more well-formed entry adds (or overwrites) its key. */
  lemma ParseEntriesAppend(entries: seq<string>, entry: string)
    requires ParseEntries(entries).Success? && '=' in entry
    ensures ParseEntries(entries + [entry])
      == Success(ParseEntries(entries).value[EntryKey(entry) := EntryValue(entry)])
  {
    assert (entries + [entry])[..|entries|] == entries;
    SplitHasSecondPiece(entry, '=');
  }

  /** Two well-formed entries in a row: the second one's key is set last. */
  lemma ParseTwoEntries(k1: string, v1: string, k2: string, v2: string)
    requires '=' !in k1 && '=' !in v1 && '=' !in k2 && '=' !in v2
    requires ',' !in k1 && ',' !in v1 && ',' !in k2 && ',' !in v2
    ensures ParseFields(k1 + "=" + v1 + "," + k2 + "=" + v2) == Success(map[k1 := v1][k2 := v2])
  {
    var e1, e2 := k1 + "=" + v1, k2 + "=" + v2;
    assert ',' !in e1 && ',' !in e2;
    assert k1 + "=" + v1 + "," + k2 + "=" + v2 == e1 + [','] + e2;
    SplitAtSeparator(e1, e2, ',');
    SplitNoSeparator(e2, ',');
    EntryParts(k1, v1, "");
    EntryParts(k2, v2, "");
    assert e1 == k1 + ['='] + v1 && e2 == k2 + ['='] + v2;
    ParseEntriesAppend([], e1);
    assert [] + [e1] == [e1];
    ParseEntriesAppend([e1], e2);
    assert [e1] + [e2] == [e1, e2];
  }

  /** `foo=bar,baz=qux` declares foo and baz. */
  lemma ParseTwoFields()
    ensures ParseFields("foo=bar,baz=qux") == Success(map["foo" := "bar", "baz" := "qux"])
  {
    ParseTwoEntries("foo", "bar", "baz", "qux");
    assert "foo" + "=" + "bar" + "," + "baz" + "=" + "qux" == "foo=bar,baz=qux";
  }

  /** A later duplicate key overwrites an earlier one: `k=1,k=2` declares k -> 2. */
  lemma ParseDuplicateKey()
    ensures ParseFields("k=1,k=2") == Success(map["k" := "2"])
  {
    ParseTwoEntries("k", "1", "k", "2");
    assert "k" + "=" + "1" + "," + "k" + "=" + "2" == "k=1,k=2";
    assert map["k" := "1"]["k" := "2"] == map["k" := "2"];
  }

  /** The value stops at the second `=`: `a=b=c` declares a -> b. */
  lemma ParseValueStopsAtSecondEquals()
    ensures ParseFields("a=b=c") == Success(map["a" := "b"])
  {
    var e := "a" + "=" + "b" + "=" + "c";
    assert e == "a=b=c";
    SplitNoSeparator(e, ',');
    EntryParts("a", "b", "c");
    ParseEntriesAppend([], e);
    assert [] + [e] == [e];
  }

  /** A trailing comma leaves an empty entry, which has no `=` and aborts the parse. */
  lemma ParseTrailingCommaFails()
    ensures ParseFields("foo=bar,") == Failure("")
  {
    var e := "foo" + "=" + "bar";
    assert e + [','] + "" == "foo=bar,";
    SplitAtSeparator(e, "", ',');
    EntryParts("foo", "bar", "");
    ParseEntriesAppend([], e);
    assert [] + [e] == [e];
    assert [e, ""][..1] == [e];
  }

  /** The memoising resolver: LogstashParser and its logstashFields map. */
  class LogstashParser {
    /** Container ID -> the field map resolved for it. */
    var logstashFields: map<string, map<string, string>>
    /** How many declarations have been looked up and parsed (instrumentation only). */
    ghost var parses: nat

    /** NewLogstashParser: an empty memo. */
    constructor ()
      ensures logstashFields == map[] && parses == 0
    {
      logstashFields := map[];
      parses := 0;
    }

    /** GetLogstashFields. A memoised container gets its stored map back and
        nothing changes, whatever its environment or the default now say: no
        declaration is looked up or parsed. Otherwise the declaration in force
        is parsed, once; on success the map is
        stored under the container ID, on a malformed entry (a panic in the
        source) the memo is left as it was. `default` is the process-wide
        LOGSTASH_FIELDS value. */
    method GetLogstashFields(container: Container, default: string)
      returns (r: Result<map<string, string>, string>)
      modifies this
      ensures container.id in old(logstashFields) ==>
        && r == Success(old(logstashFields)[container.id])
        && logstashFields == old(logstashFields) && parses == old(parses)
      ensures container.id !in old(logstashFields) ==>
        r == ParseFields(Declaration(container.env, default)) && parses == old(parses) + 1
      ensures container.id !in old(logstashFields) && r.Success? ==>
        logstashFields == old(logstashFields)[container.id := r.value]
      ensures r.Failure? ==> logstashFields == old(logstashFields)
    {
      if container.id in logstashFields {
        return Success(logstashFields[container.id]);
      }
      parses := parses + 1;

      var fieldsStr := default;
      var fields: map<string, string> := map[];

      var i := 0;
      while i < |container.env|
        invariant 0 <= i <= |container.env|
        invariant fieldsStr == Declaration(container.env[..i], default)
      {
        assert container.env[..i + 1][..i] == container.env[..i];
        var e := container.env[i];
        if HasPrefix(e, FIELDS_PREFIX) {
          fieldsStr := TrimPrefix(e, FIELDS_PREFIX);
        }
        i := i + 1;
      }
      assert container.env[..i] == container.env;

      if |fieldsStr| > 0 {
        var entries := Split(fieldsStr, ',');
        var j := 0;
        while j < |entries|
          invariant 0 <= j <= |entries|
          invariant ParseEntries(entries[..j]) == Success(fields)
        {
          assert entries[..j + 1][..j] == entries[..j];
          var sp := Split(entries[j], '=');
          if |sp| < 2 {
            ParseEntriesFailureSticks(entries, j + 1);
            return Failure(entries[j]);
          }
          fields := fields[sp[0] := sp[1]];
          j := j + 1;
        }
        assert entries[..j] == entries;
      }

      logstashFields := logstashFields[container.id := fields];
      return Success(fields);
    }
  }

  /** Resolution is idempotent per container ID: once a resolution succeeded,
      a later one for the same ID returns the same map, without parsing, even if
      the container's environment and the default have changed since. A failed
      resolution is attempted again. */
  method ResolveTwice(parser: LogstashParser, first: Container, later: Container,
                      default: string, laterDefault: string)
    returns (r1: Result<map<string, string>, string>, r2: Result<map<string, string>, string>)
    requires first.id == later.id
    modifies parser
    ensures r1.Success? ==> r2 == r1
    ensures r1.Success? ==> first.id in parser.logstashFields && parser.logstashFields[first.id] == r1.value
    ensures first.id in old(parser.logstashFields) ==> parser.parses == old(parser.parses)
    ensures first.id !in old(parser.logstashFields) ==>
      parser.parses == old(parser.parses) + (if r1.Success? then 1 else 2)
  {
    r1 := parser.GetLogstashFields(first, default);
    assert r1.Success? ==> first.id in parser.logstashFields && parser.logstashFields[first.id] == r1.value;
    r2 := parser.GetLogstashFields(later, laterDefault);
  }
}
