/**
  The listings of the plugin's unit tests, built from their lines, and what
  the model makes of them.
*/
module LibvirtFixtures {
  import opened Wrappers
  import opened GoStrings
  import opened GoStrconv
  import opened LibvirtInput
  import opened LibvirtProofs

  /** n copies of c. */
  function Repeat(c: char, n: nat): (r: string)
    ensures |r| == n && forall i :: 0 <= i < n ==> r[i] == c
  {
    if n == 0 then [] else [c] + Repeat(c, n - 1)
  }

  /** The column gap between the name and the state columns. */
  const Gap := Repeat(' ', 27)

  /** " Id    Name                           State" */
  const ListHeader := " Id" + Repeat(' ', 4) + "Name" + Gap + "State"

  /** Fifty-two dashes. */
  const ListRule := Repeat('-', 52)

  /** A row of the listing: id, a five-space gap, name, the column gap, state. */
  function Row(id: string, name: string, state: string): string {
    " " + id + Repeat(' ', 5) + name + Gap + state
  }

  /** mockListStr: the header, two running domains and two blank lines, joined by newlines. */
  const MockList := Join([ListHeader, ListRule, Row("1", "vm1", "running"), Row("2", "vm2", "running"), "", ""], '\n')

  /** mockListNoVmsStr: the header and two blank lines, joined by newlines. */
  const MockListNoVms := Join([ListHeader, ListRule, "", ""], '\n')

  lemma RepeatNoNewline(c: char, n: nat)
    requires c != '\n'
    ensures '\n' !in Repeat(c, n)
  {
  }

  lemma HeaderNoNewline()
    ensures '\n' !in ListHeader && '\n' !in ListRule
  {
    RepeatNoNewline(' ', 4);
    RepeatNoNewline(' ', 27);
    RepeatNoNewline('-', 52);
    assert '\n' !in " Id" && '\n' !in "Name" && '\n' !in "State";
  }

  lemma RowTail(name: string, state: string)
    requires |name| > 0 && NoSpace(name) && |state| > 0 && NoSpace(state)
    ensures Fields(name + Gap + state) == [name, state]
  {
    assert AllSpace(Gap);
    FieldsOfWord(state);
    FieldsAcrossSpace(name, Gap, state);
    FieldsOfWord(name);
  }

  lemma RowBody(id: string, name: string, state: string)
    requires |id| > 0 && NoSpace(id) && |name| > 0 && NoSpace(name) && |state| > 0 && NoSpace(state)
    ensures Fields(id + Repeat(' ', 5) + (name + Gap + state)) == [id, name, state]
  {
    hide Fields;
    RowTail(name, state);
    assert AllSpace(Repeat(' ', 5));
    FieldsAcrossSpace(id, Repeat(' ', 5), name + Gap + state);
    FieldsOfWord(id);
  }

  /** The fields of a row are its id, its name and its state. */
  lemma FieldsOfRow(id: string, name: string, state: string)
    requires |id| > 0 && NoSpace(id) && |name| > 0 && NoSpace(name) && |state| > 0 && NoSpace(state)
    ensures Fields(Row(id, name, state)) == [id, name, state]
  {
    hide Fields, Repeat;
    var body := id + Repeat(' ', 5) + (name + Gap + state);
    RowBody(id, name, state);
    assert Row(id, name, state) == " " + body;
    assert AllSpace(" ");
    FieldsSkipSpace(" ", body);
  }

  lemma RowNoNewline(id: string, name: string, state: string)
    requires NoSpace(id) && NoSpace(name) && NoSpace(state)
    ensures '\n' !in Row(id, name, state)
  {
    assert IsSpace('\n');
    assert '\n' !in id && '\n' !in name && '\n' !in state;
    RepeatNoNewline(' ', 5);
    RepeatNoNewline(' ', 27);
    assert '\n' !in " ";
  }

  /** A line with at least three fields in front of a listing adds its second field in front of the names. */
  lemma ListingCons(line: string, rest: seq<string>)
    requires |Fields(line)| >= 3 && ListingOf(rest).Success?
    ensures ListingOf([line] + rest) == Success([Fields(line)[1]] + ListingOf(rest).value)
  {
    var s := [line] + rest;
    assert s[0] == line && s[1..] == rest;
  }

  /** A listing output of a header, a rule and two rows names the two rows' domains. */
  lemma TwoRowListing(lines: seq<string>, d1: string, d2: string)
    requires |lines| == 6 && lines[4] == "" && lines[5] == ""
    requires |Fields(lines[2])| >= 3 && Fields(lines[2])[1] == d1
    requires |Fields(lines[3])| >= 3 && Fields(lines[3])[1] == d2
    ensures ListingOf(lines[2..]) == Success([d1, d2])
  {
    ListingOfBlankLines(["", ""]);
    ListingCons(lines[3], ["", ""]);
    assert [lines[3]] + ["", ""] == lines[3..];
    assert ListingOf(lines[3..]).value == [d2];
    ListingCons(lines[2], lines[3..]);
    assert [lines[2]] + lines[3..] == lines[2..];
    assert [d1] + [d2] == [d1, d2];
  }

  /** A header, a rule, two rows and two blank lines list the two rows' names. */
  lemma TwoRowOutput(virsh: Virsh, uri: string, id1: string, name1: string, id2: string, name2: string, state: string)
    requires NoSpace(id1) && NoSpace(name1) && NoSpace(id2) && NoSpace(name2) && NoSpace(state)
    requires |id1| > 0 && |name1| > 0 && |id2| > 0 && |name2| > 0 && |state| > 0
    requires virsh(uri, ["list"]) == Success(Join([ListHeader, ListRule, Row(id1, name1, state), Row(id2, name2, state), "", ""], '\n'))
    ensures ListHasHeader(virsh, uri)
    ensures DomainsOf(virsh, uri) == Success([name1, name2])
  {
    var parts := [ListHeader, ListRule, Row(id1, name1, state), Row(id2, name2, state), "", ""];
    HeaderNoNewline();
    RowNoNewline(id1, name1, state);
    RowNoNewline(id2, name2, state);
    SplitJoin(parts, '\n');
    FieldsOfRow(id1, name1, state);
    FieldsOfRow(id2, name2, state);
    TwoRowListing(parts, name1, name2);
  }

  /** Listing mockListStr gives vm1 then vm2. */
  lemma MockListing(virsh: Virsh, uri: string)
    requires virsh(uri, ["list"]) == Success(MockList)
    ensures ListHasHeader(virsh, uri)
    ensures DomainsOf(virsh, uri) == Success(["vm1", "vm2"])
  {
    MockWords();
    hide Join, Split, Fields, ListingOf, Repeat, Row, NoSpace;
    TwoRowOutput(virsh, uri, "1", "vm1", "2", "vm2", "running");
  }

  lemma MockWords()
    ensures NoSpace("1") && NoSpace("vm1") && NoSpace("2") && NoSpace("vm2") && NoSpace("running")
  {
  }

  /** With mockListNoVmsStr, Gather lists no domain and adds no record. */
  lemma MockNoVms(virsh: Virsh, uri: string)
    requires virsh(uri, ["list"]) == Success(MockListNoVms)
    ensures ListHasHeader(virsh, uri)
    ensures DomainsOf(virsh, uri) == Success([])
    ensures RecordsOf(virsh, uri, DomainsOf(virsh, uri).value) == []
  {
    var parts := [ListHeader, ListRule, "", ""];
    HeaderNoNewline();
    SplitJoin(parts, '\n');
    assert parts[2..] == ["", ""];
    ListingOfBlankLines(["", ""]);
  }

  // ---- A stats dump ----

  /** One `key=value` line indented by pad, whose key and value carry no surrounding space. */
  lemma StatLineOfPair(domain: string, pad: string, k: string, v: string, fields: map<string, Uint64>, state: string)
    requires AllSpace(pad) && '=' !in k && TrimSpace(k) == k && TrimSpace(v) == v
    ensures StatLine(domain, pad + k + "=" + v, fields, state) ==
            var state' := if k == "state.state" then v else state;
            if HasSuffix(k, ".name") then Success((fields, state'))
            else
              match ParseUint(v)
              case Failure(e) => Failure(ParseUintError(e))
              case Success(n) => Success((fields[k := n], state'))
  {
    hide ParseUint, SplitN2, TrimSpace;
    var key := pad + k;
    assert '=' !in pad by { assert !IsSpace('='); }
    SplitAtFirst(key, '=', v);
    TrimSpacePadded(pad, k, []);
    assert pad + k + [] == key;
  }

  lemma Untrimmed(t: string)
    requires |t| > 0 && !IsSpace(t[0]) && !IsSpace(t[|t| - 1])
    ensures TrimSpace(t) == t
  {
    TrimSpacePadded([], t, []);
    assert [] + t + [] == t;
  }

  /** The indentation of the lines of a domstats dump. */
  const Indent := Repeat(' ', 2)

  /** The first line of a domstats dump, which the parse skips. */
  const DumpHeader := "Domain: 'vm1'"

  /** Lines of mockDomInfo1: the state, one counter and one device name. */
  const StateText := Indent + "state.state" + "=" + "1"
  const BalloonText := Indent + "balloon.current" + "=" + "8388608"
  const NetNameText := Indent + "net.0.name" + "=" + DeviceName

  /** The device name of mockDomInfo1's network interface. */
  const DeviceName := "tap59ebedbf-aa"

  /** A dump with those three lines, ending in a blank line as the test dumps do. */
  const StatsDump := Join([DumpHeader, StateText, BalloonText, NetNameText, "", ""], '\n')

  /** A dump of a header, three accepted lines and two blank ones, applied one after the other. */
  lemma ThreeLineDump(domain: string, h: string, l1: string, l2: string, l3: string,
                      f1: map<string, Uint64>, f2: map<string, Uint64>, state: string)
    requires '\n' !in h && '\n' !in l1 && '\n' !in l2 && '\n' !in l3
    requires StatLine(domain, l1, map[], "") == Success((f1, state))
    requires StatLine(domain, l2, f1, state) == Success((f2, state))
    requires StatLine(domain, l3, f2, state) == Success((f2, state))
    ensures StatsOf(domain, Join([h, l1, l2, l3, "", ""], '\n')) == Success((f2, state))
  {
    hide StatLine;
    var parts := [h, l1, l2, l3, "", ""];
    SplitJoin(parts, '\n');
    var ls := parts[1..];
    assert ls[3..] == ["", ""];
    TwoBlankLines(domain, f2, state);
    assert ls[2..][0] == l3 && ls[2..][1..] == ls[3..];
    assert StatsFrom(domain, ls[2..], f2, state) == Success((f2, state));
    assert ls[1..][0] == l2 && ls[1..][1..] == ls[2..];
    assert StatsFrom(domain, ls[1..], f1, state) == Success((f2, state));
    assert ls[0] == l1;
  }

  lemma TwoBlankLines(domain: string, fields: map<string, Uint64>, state: string)
    ensures StatsFrom(domain, ["", ""], fields, state) == Success((fields, state))
  {
    hide StatLine;
    BlankStatLine(domain, fields, state);
    var one: seq<string> := [""];
    assert one[0] == "" && one[1..] == [];
    assert StatsFrom(domain, one, fields, state) == Success((fields, state));
    assert ["", ""][0] == "" && ["", ""][1..] == one;
  }

  lemma StateLine(fields: map<string, Uint64>, state: string)
    ensures StatLine("vm1", StateText, fields, state) == Success((fields["state.state" := 1], "1"))
  {
    assert AllSpace(Indent);
    Untrimmed("state.state");
    Untrimmed("1");
    ParseFormatUint(1);
    assert FormatBase(1, 10) == "1";
    StateKeyIsNotName();
    StatLineOfPair("vm1", Indent, "state.state", "1", fields, state);
  }

  lemma ParseBalloon()
    ensures ParseUint("8388608") == Success(8388608)
  {
    ParseFormatUint(8388608);
    assert FormatBase(8388608, 10) == "8388608";
  }

  lemma BalloonIsNotName()
    ensures !HasSuffix("balloon.current", ".name")
  {
    assert "balloon.current"[10..][0] == 'r';
  }

  lemma BalloonLine(fields: map<string, Uint64>, state: string)
    ensures StatLine("vm1", BalloonText, fields, state) == Success((fields["balloon.current" := 8388608], state))
  {
    assert AllSpace(Indent);
    Untrimmed("balloon.current");
    Untrimmed("8388608");
    ParseBalloon();
    BalloonIsNotName();
    StatLineOfPair("vm1", Indent, "balloon.current", "8388608", fields, state);
  }

  lemma NetNameLine(fields: map<string, Uint64>, state: string)
    ensures StatLine("vm1", NetNameText, fields, state) == Success((fields, state))
  {
    assert AllSpace(Indent);
    Untrimmed("net.0.name");
    Untrimmed(DeviceName);
    assert HasSuffix("net.0.name", ".name") by { assert "net.0.name"[5..] == ".name"; }
    StatLineOfPair("vm1", Indent, "net.0.name", DeviceName, fields, state);
  }

  /** The device name is no number: on any key not ending in `.name` it would fail the domain. */
  lemma DeviceNameIsNotNumber()
    ensures ParseUint(DeviceName) == Failure(NumError("ParseUint", DeviceName, ErrSyntax))
  {
    assert DeviceName[0] == 't' && Digit('t') == 29;
    assert BaseAndDigits(DeviceName) == (10, DeviceName);
    assert Accumulate(DeviceName, 10, 0, false) == Failure(ErrSyntax);
  }

  lemma DumpHasNoNewline()
    ensures '\n' !in DumpHeader && '\n' !in StateText && '\n' !in BalloonText && '\n' !in NetNameText
  {
    RepeatNoNewline(' ', 2);
  }

  /**
    The dump yields one record whose state tag is "1"; the state is also stored
    as a field, and the device name is not.
  */
  lemma StatsDumpRecord(virsh: Virsh, uri: string)
    requires virsh(uri, ["domstats", "vm1"]) == Success(StatsDump)
    ensures DomainRecord(virsh, uri, "vm1") ==
            Success(Record("libvirt", map["state.state" := 1, "balloon.current" := 8388608],
                           map["domain" := "vm1", "state" := "1"]))
  {
    var f1: map<string, Uint64> := map["state.state" := 1];
    var f2 := f1["balloon.current" := 8388608];
    StateLine(map[], "");
    BalloonLine(f1, "1");
    NetNameLine(f2, "1");
    DumpHasNoNewline();
    ThreeLineDump("vm1", DumpHeader, StateText, BalloonText, NetNameText, f1, f2, "1");
  }

  // ---- The unit tests' runners ----

  /** mockVirshNormal answers `list` but not `domstats`: no domain's record succeeds. */
  lemma StaleNormalMock(virsh: Virsh, uri: string)
    requires virsh(uri, ["list"]) == Success(MockList)
    requires virsh(uri, ["domstats", "vm1"]).Failure? && virsh(uri, ["domstats", "vm2"]).Failure?
    ensures ListHasHeader(virsh, uri)
    ensures DomainsOf(virsh, uri) == Success(["vm1", "vm2"])
    ensures RecordsOf(virsh, uri, ["vm1", "vm2"]) == []
  {
    MockListing(virsh, uri);
    NoRecordsOfFailing(virsh, uri, "vm1", "vm2");
  }

  lemma NoRecordsOfFailing(virsh: Virsh, uri: string, d1: string, d2: string)
    requires virsh(uri, ["domstats", d1]).Failure? && virsh(uri, ["domstats", d2]).Failure?
    ensures RecordsOf(virsh, uri, [d1, d2]) == []
  {
    assert DomainRecord(virsh, uri, d1).Failure? && DomainRecord(virsh, uri, d2).Failure?;
    hide DomainRecord;
    var ds := [d1, d2];
    var first := ds[..1];
    assert first[..0] == [] && first[0] == d1;
    assert RecordsOf(virsh, uri, first) == [];
    assert ds[..|ds| - 1] == first && ds[|ds| - 1] == d2;
  }

  /** The runner of TestLibvirtNoVms. */
  function NoVmsRunner(): Virsh {
    (u: string, args: seq<string>) =>
      if args == ["list"] then Success(MockListNoVms) else Failure(VirshError("unexpected cmd"))
  }

  /** The runner of TestLibvirtNotInstalled. */
  function NotInstalledRunner(): Virsh {
    (u: string, args: seq<string>) =>
      if args == ["list"] then Failure(VirshError(NotFound)) else Failure(VirshError("unexpected cmd"))
  }

  const NotFound := "exec: executable file not found in $PATH"

  /**
    A stand-in for the runner of TestLibvirtNormal that agrees with it on every
    call Gather makes: `list` gives mockListStr, and `domstats` fails, since
    that runner answers only `list` and `dominfo`.
  */
  function NormalRunner(): Virsh {
    (u: string, args: seq<string>) =>
      if args == ["list"] then Success(MockList) else Failure(VirshError("unknown cmd"))
  }

  /** TestLibvirtNoVms: Gather succeeds and adds no record. */
  method GatherNoVms() returns (err: Option<Error>, records: seq<Record>)
    ensures err == None && records == []
  {
    var virsh := NoVmsRunner();
    MockNoVms(virsh, "test:///default");
    var lv := new Libvirt("test:///default", virsh);
    var acc := new Accumulator();
    err := lv.Gather(acc);
    records := acc.records;
  }

  /** TestLibvirtNotInstalled: Gather returns the runner's error and adds no record. */
  method GatherNotInstalled() returns (err: Option<Error>, records: seq<Record>)
    ensures err == Some(VirshError(NotFound)) && records == []
  {
    var lv := new Libvirt("test:///default", NotInstalledRunner());
    var acc := new Accumulator();
    err := lv.Gather(acc);
    records := acc.records;
  }

  /** TestLibvirtNormal as written: Gather succeeds but adds no record. */
  method GatherStaleNormal() returns (err: Option<Error>, records: seq<Record>)
    ensures err == None && records == []
  {
    var virsh := NormalRunner();
    StaleNormalMock(virsh, "test:///default");
    var lv := new Libvirt("test:///default", virsh);
    var acc := new Accumulator();
    err := lv.Gather(acc);
    records := acc.records;
  }
}
