/**
  The libvirt input: list the domains with `virsh list`, then turn each
  domain's `virsh domstats` dump into one "libvirt" record of unsigned
  counters tagged with the domain and its state.

  The command runner is injected (`Virsh`), and the accumulator is modelled as
  the sequence of records handed to it.
*/
module LibvirtInput {
  import opened Wrappers
  import opened GoStrings
  import opened GoStrconv

  /** The errors the input can return. */
  datatype Error =
    | VirshError(message: string)                  // returned by the command runner
    | ListLineError(line: string)                  // a listing line with too few fields
    | DomainInfoError(domain: string, line: string) // a stats line without '='
    | ParseUintError(cause: NumError)              // returned by strconv.ParseUint

  /** Runs `virsh -c uri args...` and yields its standard output or an error. */
  type Virsh = (string, seq<string>) -> Result<string, Error>

  /** One call of AddFields on the accumulator. */
  datatype Record = Record(measurement: string, fields: map<string, Uint64>, tags: map<string, string>)

  /** The accumulator, as the sequence of records added to it. */
  class Accumulator {
    var records: seq<Record>

    constructor ()
      ensures records == []
    {
      records := [];
    }

    method AddFields(measurement: string, fields: map<string, Uint64>, tags: map<string, string>)
      modifies this
      ensures records == old(records) + [Record(measurement, fields, tags)]
    {
      records := records + [Record(measurement, fields, tags)];
    }
  }

  // ---- virsh list ----

  /**
    The domain names of the listing lines after the header: the second field
    of every non-empty line, or the error for the first non-empty line with
    fewer than three fields.
  */
  function ListingOf(lines: seq<string>): Result<seq<string>, Error>
  {
    if lines == [] then Success([])
    else if |lines[0]| == 0 then ListingOf(lines[1..])
    else if |Fields(lines[0])| < 3 then Failure(ListLineError(lines[0]))
    else
      match ListingOf(lines[1..])
      case Success(ds) => Success([Fields(lines[0])[1]] + ds)
      case Failure(e) => Failure(e)
  }

  /** The names ds in front of what a later part of the listing yields. */
  function Prepend(ds: seq<string>, r: Result<seq<string>, Error>): Result<seq<string>, Error> {
    match r
    case Success(rest) => Success(ds + rest)
    case Failure(e) => Failure(e)
  }

  lemma PrependAssoc(a: seq<string>, b: seq<string>, r: Result<seq<string>, Error>)
    ensures Prepend(a, Prepend(b, r)) == Prepend(a + b, r)
  {
    if r.Success? {
      assert a + (b + r.value) == (a + b) + r.value;
    }
  }

  /** The dead `fields[k] = 0` before `fields[k] = value` leaves no trace. */
  lemma UpdateTwice(m: map<string, Uint64>, k: string, a: Uint64, b: Uint64)
    ensures m[k := a][k := b] == m[k := b]
  {
    assert m[k := a][k := b].Keys == m[k := b].Keys;
  }

  /** `lines[2:]` needs at least two lines, that is, a newline in the output. */
  predicate ListHasHeader(virsh: Virsh, uri: string) {
    virsh(uri, ["list"]).Success? ==> '\n' in virsh(uri, ["list"]).value
  }

  /** What listDomains yields: the runner's error, or the listing of the lines after the first two. */
  function DomainsOf(virsh: Virsh, uri: string): Result<seq<string>, Error>
    requires ListHasHeader(virsh, uri)
  {
    match virsh(uri, ["list"])
    case Failure(e) => Failure(e)
    case Success(out) => ListingOf(Split(out, '\n')[2..])
  }

  // ---- virsh domstats ----

  /** The fields collected so far and the state seen so far. */
  type Stats = (map<string, Uint64>, string)

  /** The effect of one line of a stats dump (the header line excepted). */
  function StatLine(domain: string, line: string, fields: map<string, Uint64>, state: string): Result<Stats, Error>
  {
    if |line| == 0 then Success((fields, state))
    else
      var kv := SplitN2(line, '=');
      if |kv| != 2 then Failure(DomainInfoError(domain, line))
      else
        var k := TrimSpace(kv[0]);
        var v := TrimSpace(kv[1]);
        var state' := if k == "state.state" then v else state;
        if HasSuffix(k, ".name") then Success((fields, state'))
        else
          match ParseUint(v)
          case Failure(e) => Failure(ParseUintError(e))
          case Success(n) => Success((fields[k := n], state'))
  }

  /** The lines of a stats dump applied in order, stopping at the first error. */
  function StatsFrom(domain: string, lines: seq<string>, fields: map<string, Uint64>, state: string): Result<Stats, Error>
  {
    if lines == [] then Success((fields, state))
    else
      match StatLine(domain, lines[0], fields, state)
      case Failure(e) => Failure(e)
      case Success((f, s)) => StatsFrom(domain, lines[1..], f, s)
  }

  lemma StatsFromStep(domain: string, lines: seq<string>, i: nat, fields: map<string, Uint64>, state: string)
    requires i < |lines|
    ensures StatsFrom(domain, lines[i..], fields, state) ==
            match StatLine(domain, lines[i], fields, state)
            case Failure(e) => Failure(e)
            case Success((f, s)) => StatsFrom(domain, lines[i + 1..], f, s)
  {
    assert lines[i..][0] == lines[i] && lines[i..][1..] == lines[i + 1..];
  }

  /** A blank line changes nothing. */
  lemma BlankStatLine(domain: string, fields: map<string, Uint64>, state: string)
    ensures StatLine(domain, "", fields, state) == Success((fields, state))
  {
  }

  /** A whole stats dump: every line but the first, from no fields and an empty state. */
  function StatsOf(domain: string, out: string): Result<Stats, Error> {
    StatsFrom(domain, Split(out, '\n')[1..], map[], "")
  }

  function Tags(domain: string, state: string): map<string, string> {
    map["domain" := domain, "state" := state]
  }

  /** What gatherDomain adds for one domain, or the error it returns. */
  function DomainRecord(virsh: Virsh, uri: string, domain: string): Result<Record, Error> {
    match virsh(uri, ["domstats", domain])
    case Failure(e) => Failure(e)
    case Success(out) =>
      match StatsOf(domain, out)
      case Failure(e) => Failure(e)
      case Success((fields, state)) => Success(Record("libvirt", fields, Tags(domain, state)))
  }

  /** The records Gather adds for the domains ds, in order; a failing domain adds none. */
  function RecordsOf(virsh: Virsh, uri: string, ds: seq<string>): seq<Record> {
    if ds == [] then []
    else
      RecordsOf(virsh, uri, ds[..|ds| - 1])
      + match DomainRecord(virsh, uri, ds[|ds| - 1])
        case Success(r) => [r]
        case Failure(_) => []
  }

  /**
    The body of gatherDomain's line loop for one non-empty line after the
    first: the updated fields and state, or the line's error.
  */
  method ParseStatLine(domain: string, line: string, fields: map<string, Uint64>, state: string)
    returns (fields': map<string, Uint64>, state': string, err: Option<Error>)
    requires |line| > 0
    ensures match StatLine(domain, line, fields, state)
            case Success((f, s)) => err == None && fields' == f && state' == s
            case Failure(e) => err == Some(e)
  {
    fields', state' := fields, state;
    var kv := SplitN2(line, '=');
    if |kv| != 2 {
      return fields', state', Some(DomainInfoError(domain, line));
    }
    var k := TrimSpace(kv[0]);
    var v := TrimSpace(kv[1]);
    if k == "state.state" {
      state' := v;
    }
    if HasSuffix(k, ".name") {
      return fields', state', None;
    }
    var value := ParseUint(v);
    if value.Failure? {
      return fields', state', Some(ParseUintError(value.error));
    }
    if k !in fields' {
      fields' := fields'[k := 0];
      UpdateTwice(fields, k, 0, value.value);
    }
    fields' := fields'[k := value.value];
    return fields', state', None;
  }

  /**
    The line loop of gatherDomain: the fields and the state of a stats dump,
    or the error of its first bad line.
  */
  method ParseDomainStats(domain: string, out: string) returns (fields: map<string, Uint64>, state: string, err: Option<Error>)
    ensures match StatsOf(domain, out)
            case Success((f, s)) => err == None && fields == f && state == s
            case Failure(e) => err == Some(e)
  {
    hide StatLine;
    fields := map[];
    state := "";
    var lines := Split(out, '\n');
    ghost var result := StatsOf(domain, out);
    for idx := 0 to |lines|
      invariant idx <= 1 ==> fields == map[] && state == ""
      invariant idx >= 1 ==> result == StatsFrom(domain, lines[idx..], fields, state)
    {
      var line := lines[idx];
      StatsFromStep(domain, lines, idx, fields, state);
      if |line| <= 0 {
        BlankStatLine(domain, fields, state);
        continue;
      }
      if idx == 0 {
        continue;
      }
      var lineErr;
      fields, state, lineErr := ParseStatLine(domain, line, fields, state);
      if lineErr.Some? {
        return fields, state, lineErr;
      }
    }
    assert lines[|lines|..] == [];
    return fields, state, None;
  }

  /** The plugin: a connection URI and the command runner. */
  class Libvirt {
    const uri: string
    const virsh: Virsh

    constructor (uri: string, virsh: Virsh)
      ensures this.uri == uri && this.virsh == virsh
    {
      this.uri := uri;
      this.virsh := virsh;
    }

    /** listDomains: on error, no domains and that error. */
    method ListDomains() returns (domains: seq<string>, err: Option<Error>)
      requires ListHasHeader(virsh, uri)
      ensures match DomainsOf(virsh, uri)
              case Success(ds) => domains == ds && err == None
              case Failure(e) => domains == [] && err == Some(e)
    {
      var out := virsh(uri, ["list"]);
      if out.Failure? {
        return [], Some(out.error);
      }
      var lines := Split(out.value, '\n');
      var rest := lines[2..];
      domains := [];
      assert rest[0..] == rest;
      assert Prepend([], ListingOf(rest)) == ListingOf(rest) by {
        if ListingOf(rest).Success? {
          assert [] + ListingOf(rest).value == ListingOf(rest).value;
        }
      }
      for i := 0 to |rest|
        invariant ListingOf(rest) == Prepend(domains, ListingOf(rest[i..]))
      {
        var line := rest[i];
        assert rest[i..][0] == line && rest[i..][1..] == rest[i + 1..];
        if |line| <= 0 {
          continue;
        }
        var fields := Fields(line);
        if |fields| < 3 {
          return [], Some(ListLineError(line));
        }
        PrependAssoc(domains, [fields[1]], ListingOf(rest[i + 1..]));
        domains := domains + [fields[1]];
      }
      assert rest[|rest|..] == [];
      return domains, None;
    }

    /** gatherDomain: adds the domain's record, or returns the error and adds nothing. */
    method GatherDomain(acc: Accumulator, domain: string) returns (err: Option<Error>)
      modifies acc
      ensures match DomainRecord(virsh, uri, domain)
              case Success(r) => err == None && acc.records == old(acc.records) + [r]
              case Failure(e) => err == Some(e) && acc.records == old(acc.records)
    {
      var out := virsh(uri, ["domstats", domain]);
      if out.Failure? {
        return Some(out.error);
      }
      var fields, state, parseErr := ParseDomainStats(domain, out.value);
      if parseErr.Some? {
        return parseErr;
      }
      acc.AddFields("libvirt", fields, Tags(domain, state));
      return None;
    }

    /** Gather: a listing error is returned; errors of single domains are dropped. */
    method Gather(acc: Accumulator) returns (err: Option<Error>)
      requires ListHasHeader(virsh, uri)
      modifies acc
      ensures match DomainsOf(virsh, uri)
              case Failure(e) => err == Some(e) && acc.records == old(acc.records)
              case Success(ds) => err == None && acc.records == old(acc.records) + RecordsOf(virsh, uri, ds)
    {
      hide DomainRecord;
      var domains, listErr := ListDomains();
      if listErr.Some? {
        return listErr;
      }
      for i := 0 to |domains|
        invariant acc.records == old(acc.records) + RecordsOf(virsh, uri, domains[..i])
      {
        assert domains[..i + 1][..i] == domains[..i];
        var ignored := GatherDomain(acc, domains[i]);
      }
      assert domains[..|domains|] == domains;
      return None;
    }
  }
}
