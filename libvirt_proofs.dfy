/**
  Properties of the libvirt input model: what the listing, the stats parse
  and Gather produce, stated against the lines of the command output.
*/
module LibvirtProofs {
  import opened Wrappers
  import opened GoStrings
  import opened GoStrconv
  import opened LibvirtInput

  // ==== virsh list ====

  /** A listing line is accepted when it is empty or has at least three fields. */
  predicate ListLineOk(line: string) {
    |line| == 0 || |Fields(line)| >= 3
  }

  /** The non-empty lines, in order. */
  function NonEmpty(lines: seq<string>): (r: seq<string>)
    ensures forall i :: 0 <= i < |r| ==> |r[i]| > 0
  {
    if lines == [] then []
    else (if |lines[0]| == 0 then [] else [lines[0]]) + NonEmpty(lines[1..])
  }

  /** The listing succeeds exactly when every line is accepted. */
  lemma {:induction false} ListingSucceedsIff(lines: seq<string>)
    ensures ListingOf(lines).Success? <==> forall i :: 0 <= i < |lines| ==> ListLineOk(lines[i])
  {
    if lines != [] {
      ListingSucceedsIff(lines[1..]);
      assert forall i :: 1 <= i < |lines| ==> lines[i] == lines[1..][i - 1];
    }
  }

  /** A successful listing has one name per non-empty line, each line having at least three fields. */
  lemma {:induction false} ListingCount(lines: seq<string>)
    requires ListingOf(lines).Success?
    ensures |ListingOf(lines).value| == |NonEmpty(lines)|
  {
    if lines != [] {
      ListingCount(lines[1..]);
    }
  }

  /** Name i of a successful listing is the second field of the i-th non-empty line. */
  lemma {:induction false} ListingNameAt(lines: seq<string>, i: nat)
    requires ListingOf(lines).Success? && i < |NonEmpty(lines)|
    ensures |Fields(NonEmpty(lines)[i])| >= 3
    ensures |ListingOf(lines).value| == |NonEmpty(lines)|
    ensures ListingOf(lines).value[i] == Fields(NonEmpty(lines)[i])[1]
  {
    ListingCount(lines);
    var tail := lines[1..];
    ListingCount(tail);
    var ne, ds := NonEmpty(tail), ListingOf(tail).value;
    if |lines[0]| == 0 {
      assert NonEmpty(lines) == ne;
      ListingNameAt(tail, i);
    } else {
      assert NonEmpty(lines) == [lines[0]] + ne;
      assert ListingOf(lines).value == [Fields(lines[0])[1]] + ds;
      if i > 0 {
        ListingNameAt(tail, i - 1);
        assert NonEmpty(lines)[i] == ne[i - 1];
      }
    }
  }

  /**
    A successful listing is the second field of every non-empty line, in line
    order; each name is a non-empty run of non-space characters.
  */
  lemma ListingNames(lines: seq<string>)
    requires ListingOf(lines).Success?
    ensures |ListingOf(lines).value| == |NonEmpty(lines)|
    ensures forall i :: 0 <= i < |NonEmpty(lines)| ==>
              |Fields(NonEmpty(lines)[i])| >= 3 && ListingOf(lines).value[i] == Fields(NonEmpty(lines)[i])[1]
    ensures forall i :: 0 <= i < |ListingOf(lines).value| ==>
              |ListingOf(lines).value[i]| > 0 && NoSpace(ListingOf(lines).value[i])
  {
    ListingCount(lines);
    forall i | 0 <= i < |NonEmpty(lines)|
      ensures |Fields(NonEmpty(lines)[i])| >= 3 && ListingOf(lines).value[i] == Fields(NonEmpty(lines)[i])[1]
    {
      ListingNameAt(lines, i);
    }
  }

  /**
    A failed listing names line i, the first non-empty line with fewer than
    three fields; every line before it is accepted.
  */
  lemma {:induction false} ListingFirstMalformed(lines: seq<string>) returns (i: nat)
    requires ListingOf(lines).Failure?
    ensures i < |lines| && !ListLineOk(lines[i]) && ListingOf(lines).error == ListLineError(lines[i])
    ensures forall j :: 0 <= j < i ==> ListLineOk(lines[j])
  {
    if |lines[0]| > 0 && |Fields(lines[0])| < 3 {
      i := 0;
    } else {
      var tail := lines[1..];
      var t := ListingFirstMalformed(tail);
      i := t + 1;
      assert lines[i] == tail[t];
      forall j | 0 < j < i ensures ListLineOk(lines[j]) {
        assert lines[j] == tail[j - 1];
      }
    }
  }

  /** Output whose lines after the header are all empty lists no domain. */
  lemma {:induction false} ListingOfBlankLines(lines: seq<string>)
    requires forall i :: 0 <= i < |lines| ==> |lines[i]| == 0
    ensures ListingOf(lines) == Success([])
  {
    if lines != [] {
      ListingOfBlankLines(lines[1..]);
    }
  }

  // ==== virsh domstats ====

  /** The trimmed key of a line holding '='. */
  function Key(line: string): string
    requires '=' in line
  {
    TrimSpace(SplitN2(line, '=')[0])
  }

  /** The trimmed value of a line holding '='. */
  function Value(line: string): string
    requires '=' in line
  {
    TrimSpace(SplitN2(line, '=')[1])
  }

  /** A stats line is accepted when it is empty, or holds '=' and has a `.name` key or a value ParseUint accepts. */
  predicate StatLineOk(line: string) {
    |line| == 0 || ('=' in line && (HasSuffix(Key(line), ".name") || ParseUint(Value(line)).Success?))
  }

  /** The error a rejected line gives. */
  function LineError(domain: string, line: string): Error
    requires !StatLineOk(line)
  {
    if '=' !in line then DomainInfoError(domain, line)
    else ParseUintError(ParseUint(Value(line)).error)
  }

  /** The value on the last line whose key is k. */
  function LastValue(lines: seq<string>, k: string): Option<string> {
    if lines == [] then None
    else
      match LastValue(lines[1..], k)
      case Some(v) => Some(v)
      case None => if '=' in lines[0] && Key(lines[0]) == k then Some(Value(lines[0])) else None
  }

  /** Line i holds key k. */
  predicate HasKey(lines: seq<string>, i: int, k: string)
    requires 0 <= i < |lines|
  {
    '=' in lines[i] && Key(lines[i]) == k
  }

  /** LastValue is None exactly when no line has key k. */
  lemma {:induction false} LastValueNone(lines: seq<string>, k: string)
    ensures LastValue(lines, k).None? <==> forall i :: 0 <= i < |lines| ==> !HasKey(lines, i, k)
  {
    hide Key, Value;
    if lines != [] {
      var tail := lines[1..];
      LastValueNone(tail, k);
      forall i | 1 <= i < |lines| ensures HasKey(lines, i, k) == HasKey(tail, i - 1, k) {
        assert lines[i] == tail[i - 1];
      }
      assert LastValue(lines, k).None? <==> LastValue(tail, k).None? && !HasKey(lines, 0, k);
      if forall i :: 0 <= i < |lines| ==> !HasKey(lines, i, k) {
        assert forall i :: 0 <= i < |tail| ==> !HasKey(tail, i, k) by {
          forall i | 0 <= i < |tail| ensures !HasKey(tail, i, k) {
            assert !HasKey(lines, i + 1, k);
          }
        }
      }
    }
  }

  /** Otherwise it is the value of line i, which has key k, and no later line has key k. */
  lemma {:induction false} LastValueIsLast(lines: seq<string>, k: string) returns (i: nat)
    requires LastValue(lines, k).Some?
    ensures i < |lines| && HasKey(lines, i, k) && Value(lines[i]) == LastValue(lines, k).value
    ensures forall j :: i < j < |lines| ==> !HasKey(lines, j, k)
  {
    hide Key, Value;
    var tail := lines[1..];
    if LastValue(tail, k).Some? {
      var t := LastValueIsLast(tail, k);
      i := t + 1;
      assert lines[i] == tail[t];
      forall j | i < j < |lines| ensures !HasKey(lines, j, k) {
        assert lines[j] == tail[j - 1];
        assert !HasKey(tail, j - 1, k);
      }
    } else {
      i := 0;
      LastValueNone(tail, k);
      forall j | 0 < j < |lines| ensures !HasKey(lines, j, k) {
        assert lines[j] == tail[j - 1];
        assert !HasKey(tail, j - 1, k);
      }
    }
  }

  /** One line: it succeeds exactly when it is accepted, otherwise it gives LineError. */
  lemma StatLineResult(domain: string, line: string, fields: map<string, Uint64>, state: string)
    ensures StatLine(domain, line, fields, state).Success? <==> StatLineOk(line)
    ensures !StatLineOk(line) ==> StatLine(domain, line, fields, state) == Failure(LineError(domain, line))
  {
  }

  /** An accepted line: a `state.state` key sets the state, any other key keeps it. */
  lemma StatLineState(domain: string, line: string, fields: map<string, Uint64>, state: string)
    requires StatLine(domain, line, fields, state).Success?
    ensures |line| > 0 ==> '=' in line
    ensures StatLine(domain, line, fields, state).value.1 ==
            if '=' in line && Key(line) == "state.state" then Value(line) else state
  {
  }

  /** An accepted line: a key not ending in `.name` stores its parsed value, and no other field changes. */
  lemma StatLineFields(domain: string, line: string, fields: map<string, Uint64>, state: string)
    requires StatLine(domain, line, fields, state).Success?
    ensures |line| > 0 ==> '=' in line
    ensures StatLine(domain, line, fields, state).value.0 ==
            if |line| == 0 || HasSuffix(Key(line), ".name") then fields
            else fields[Key(line) := ParseUint(Value(line)).value]
  {
  }

  /** The parse of a dump succeeds exactly when every line is accepted. */
  lemma {:induction false} StatsSucceedsIff(domain: string, lines: seq<string>, fields: map<string, Uint64>, state: string)
    ensures StatsFrom(domain, lines, fields, state).Success? <==> forall i :: 0 <= i < |lines| ==> StatLineOk(lines[i])
  {
    hide StatLine;
    if lines != [] {
      var tail := lines[1..];
      StatLineResult(domain, lines[0], fields, state);
      match StatLine(domain, lines[0], fields, state)
      case Failure(_) =>
        assert !StatLineOk(lines[0]);
      case Success((f, s)) =>
        StatsSucceedsIff(domain, tail, f, s);
        if forall i :: 0 <= i < |tail| ==> StatLineOk(tail[i]) {
          forall i | 0 <= i < |lines| ensures StatLineOk(lines[i]) {
            if i > 0 { assert lines[i] == tail[i - 1]; }
          }
        } else {
          var i :| 0 <= i < |tail| && !StatLineOk(tail[i]);
          assert lines[i + 1] == tail[i];
        }
    }
  }

  /** A failed parse gives the error of line i, the first rejected line. */
  lemma {:induction false} StatsFirstError(domain: string, lines: seq<string>, fields: map<string, Uint64>, state: string)
    returns (i: nat)
    requires StatsFrom(domain, lines, fields, state).Failure?
    ensures i < |lines| && !StatLineOk(lines[i])
    ensures StatsFrom(domain, lines, fields, state).error == LineError(domain, lines[i])
    ensures forall j :: 0 <= j < i ==> StatLineOk(lines[j])
  {
    hide StatLine;
    StatLineResult(domain, lines[0], fields, state);
    match StatLine(domain, lines[0], fields, state)
    case Failure(_) =>
      i := 0;
    case Success((f, s)) =>
      var tail := lines[1..];
      var t := StatsFirstError(domain, tail, f, s);
      i := t + 1;
      assert lines[i] == tail[t];
      forall j | 0 < j < i ensures StatLineOk(lines[j]) {
        assert lines[j] == tail[j - 1];
      }
  }

  /** The state of a successful parse is the value of the last `state.state` line, if any. */
  lemma {:induction false} StatsState(domain: string, lines: seq<string>, fields: map<string, Uint64>, state: string)
    requires StatsFrom(domain, lines, fields, state).Success?
    ensures StatsFrom(domain, lines, fields, state).value.1 ==
            match LastValue(lines, "state.state")
            case Some(v) => v
            case None => state
  {
    hide StatLine;
    if lines != [] {
      StatLineState(domain, lines[0], fields, state);
      var tail := lines[1..];
      match StatLine(domain, lines[0], fields, state)
      case Success((f, s)) =>
        StatsState(domain, tail, f, s);
        assert s == if HasKey(lines, 0, "state.state") then Value(lines[0]) else state;
    }
  }

  /**
    The fields of a successful parse: a key seen on some line and not ending
    in `.name` holds the parsed value of its last line; every other key is
    as it was before.
  */
  lemma {:induction false} StatsFields(domain: string, lines: seq<string>, fields: map<string, Uint64>, state: string, k: string)
    requires StatsFrom(domain, lines, fields, state).Success?
    ensures LastValue(lines, k).Some? && !HasSuffix(k, ".name") ==>
              k in StatsFrom(domain, lines, fields, state).value.0
              && ParseUint(LastValue(lines, k).value) == Success(StatsFrom(domain, lines, fields, state).value.0[k])
    ensures LastValue(lines, k).None? || HasSuffix(k, ".name") ==>
              (k in StatsFrom(domain, lines, fields, state).value.0 <==> k in fields)
              && (k in fields ==> StatsFrom(domain, lines, fields, state).value.0[k] == fields[k])
  {
    hide StatLine, ParseUint;
    if lines != [] {
      StatLineResult(domain, lines[0], fields, state);
      StatLineFields(domain, lines[0], fields, state);
      var tail := lines[1..];
      match StatLine(domain, lines[0], fields, state)
      case Success((f, s)) =>
        StatsFields(domain, tail, f, s, k);
        if HasKey(lines, 0, k) && !HasSuffix(k, ".name") {
          assert k in f && ParseUint(Value(lines[0])) == Success(f[k]);
        } else {
          assert (k in f <==> k in fields) && (k in fields ==> f[k] == fields[k]);
        }
    }
  }

  /** What a successful dump yields, in terms of the lines after the first one. */
  lemma DumpContents(domain: string, out: string)
    requires StatsOf(domain, out).Success?
    ensures var lines := Split(out, '\n')[1..];
            var (fields, state) := StatsOf(domain, out).value;
            && (forall k :: k in fields <==> LastValue(lines, k).Some? && !HasSuffix(k, ".name"))
            && (forall k :: k in fields ==> ParseUint(LastValue(lines, k).value) == Success(fields[k]))
            && state == match LastValue(lines, "state.state") case Some(v) => v case None => ""
  {
    var lines := Split(out, '\n')[1..];
    forall k {
      StatsFields(domain, lines, map[], "", k);
    }
    StatsState(domain, lines, map[], "");
  }

  /** No key ending in `.name` is ever a field. */
  lemma NameKeysDropped(domain: string, out: string)
    requires StatsOf(domain, out).Success?
    ensures forall k :: k in StatsOf(domain, out).value.0 ==> !HasSuffix(k, ".name")
  {
    DumpContents(domain, out);
  }

  lemma StateKeyIsNotName()
    ensures !HasSuffix("state.state", ".name")
  {
    assert "state.state"[6..][0] == 's';
  }

  /** A `state.state` line is also stored as a numeric field, so its value must parse. */
  lemma StateIsAlsoField(domain: string, out: string)
    requires StatsOf(domain, out).Success?
    requires LastValue(Split(out, '\n')[1..], "state.state").Some?
    ensures "state.state" in StatsOf(domain, out).value.0
    ensures ParseUint(StatsOf(domain, out).value.1) == Success(StatsOf(domain, out).value.0["state.state"])
  {
    var lines := Split(out, '\n')[1..];
    StateKeyIsNotName();
    StatsFields(domain, lines, map[], "", "state.state");
    StatsState(domain, lines, map[], "");
  }

  /** A `state.state` value ParseUint rejects makes the whole domain fail. */
  lemma NonNumericStateFails(domain: string, out: string, i: nat)
    requires 0 < i < |Split(out, '\n')|
    requires '=' in Split(out, '\n')[i] && Key(Split(out, '\n')[i]) == "state.state"
    requires ParseUint(Value(Split(out, '\n')[i])).Failure?
    ensures StatsOf(domain, out).Failure?
  {
    var lines := Split(out, '\n');
    assert lines[1..][i - 1] == lines[i];
    StateKeyIsNotName();
    assert !StatLineOk(lines[1..][i - 1]);
    StatsSucceedsIff(domain, lines[1..], map[], "");
  }

  /** A successful record is a "libvirt" record tagged with exactly the domain and its state. */
  lemma DomainRecordShape(virsh: Virsh, uri: string, domain: string)
    requires DomainRecord(virsh, uri, domain).Success?
    ensures var r := DomainRecord(virsh, uri, domain).value;
            && r.measurement == "libvirt"
            && r.tags.Keys == {"domain", "state"}
            && r.tags["domain"] == domain
            && r.tags["state"] == StatsOf(domain, virsh(uri, ["domstats", domain]).value).value.1
            && r.fields == StatsOf(domain, virsh(uri, ["domstats", domain]).value).value.0
  {
  }

  // ==== Gather ====

  /** The domains whose record succeeds, in order. */
  function Gathered(virsh: Virsh, uri: string, ds: seq<string>): seq<string> {
    if ds == [] then []
    else
      Gathered(virsh, uri, ds[..|ds| - 1])
      + if DomainRecord(virsh, uri, ds[|ds| - 1]).Success? then [ds[|ds| - 1]] else []
  }

  /** The records of a + b are those of a followed by those of b: domains do not affect one another. */
  lemma {:induction false} RecordsOfAppend(virsh: Virsh, uri: string, a: seq<string>, b: seq<string>)
    ensures RecordsOf(virsh, uri, a + b) == RecordsOf(virsh, uri, a) + RecordsOf(virsh, uri, b)
  {
    hide DomainRecord;
    if b == [] {
      assert a + b == a;
    } else {
      var ab := a + b;
      assert ab[..|ab| - 1] == a + b[..|b| - 1];
      assert ab[|ab| - 1] == b[|b| - 1];
      RecordsOfAppend(virsh, uri, a, b[..|b| - 1]);
    }
  }

  /** Gather adds exactly one record per domain whose stats parse, in the order of the listing. */
  lemma {:induction false} RecordsPerDomain(virsh: Virsh, uri: string, ds: seq<string>)
    ensures |RecordsOf(virsh, uri, ds)| == |Gathered(virsh, uri, ds)| <= |ds|
    ensures forall i :: 0 <= i < |Gathered(virsh, uri, ds)| ==>
              DomainRecord(virsh, uri, Gathered(virsh, uri, ds)[i]) == Success(RecordsOf(virsh, uri, ds)[i])
  {
    hide DomainRecord;
    if ds != [] {
      RecordsPerDomain(virsh, uri, ds[..|ds| - 1]);
    }
  }

  /** When every domain parses, there is one record per listed domain. */
  lemma {:induction false} AllDomainsGathered(virsh: Virsh, uri: string, ds: seq<string>)
    requires forall i :: 0 <= i < |ds| ==> DomainRecord(virsh, uri, ds[i]).Success?
    ensures Gathered(virsh, uri, ds) == ds
  {
    hide DomainRecord;
    if ds != [] {
      var init := ds[..|ds| - 1];
      forall i | 0 <= i < |init| ensures DomainRecord(virsh, uri, init[i]).Success? {
        assert init[i] == ds[i];
      }
      AllDomainsGathered(virsh, uri, init);
      assert DomainRecord(virsh, uri, ds[|ds| - 1]).Success?;
      assert init + [ds[|ds| - 1]] == ds;
    }
  }
}
