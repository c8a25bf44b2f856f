# libvirt input, modelled in Dafny

The telegraf `libvirt` input collects one metric record per virtual machine
("domain") on each collection cycle:

1. `listDomains` runs `virsh list`, drops the header and the rule lines, skips
   blank lines and takes the second whitespace-separated field of every other
   line as a domain name. A line with fewer than three fields fails the whole
   listing.
2. `gatherDomain` runs `virsh domstats <domain>`, skips the first line and
   blank lines, and splits every other line at its first `=`. It trims key and
   value. A `state.state` key sets the `state` tag. Keys ending in `.name` are
   dropped. Every other value is parsed with `strconv.ParseUint(v, 0, 64)` and
   stored under its key. The result is one `libvirt` record with tags
   `domain` and `state`.
3. `Gather` lists the domains, returns the listing error if there is one, and
   otherwise gathers every domain in turn, discarding the per-domain errors.

The model keeps the shape of the Go code:

- `Libvirt` is a class holding the connection URI and the injected command
  runner `Virsh`.
- `ListDomains`, `GatherDomain` and `Gather` are methods of that class, and
  the stats loop of `gatherDomain` is the method `ParseDomainStats`.
  `ListDomains`, `Gather` and `ParseDomainStats` keep the Go loops, with their
  invariants. `GatherDomain` has no loop of its own: it calls
  `ParseDomainStats`.
- The accumulator is a class whose `records` sequence `AddFields` appends to.
- Each method is proved against a specification function: `DomainsOf`,
  `StatsOf`, `DomainRecord` and `RecordsOf`.
- The lemmas in `LibvirtProofs` state what those functions mean in terms of
  the lines of the command output.

The Go library functions the plugin relies on are modelled in their own
modules:

- `GoStrings`: `strings.Split`, `SplitN(…, 2)`, `Fields`, `TrimSpace`,
  `HasSuffix` and `unicode.IsSpace`.
- `GoStrconv`: `strconv.ParseUint` with base 0 and 64 bits. This covers the
  `0b`/`0o`/`0x` prefixes in either case, a leading `0` for octal, `_` separators checked the
  way strconv's `underscoreOK` checks them, and the cutoff and overflow range
  checks.

`LibvirtFixtures` builds the unit tests' runner outputs line by line and
proves what the model makes of them.

Files:

| file | contents |
|---|---|
| `wrappers.dfy` | `Option`, `Result` |
| `go_strings.dfy` | module `GoStrings` |
| `go_strconv.dfy` | module `GoStrconv` |
| `libvirt.dfy` | module `LibvirtInput`: errors, records, accumulator, specification functions, the `Libvirt` class |
| `libvirt_proofs.dfy` | module `LibvirtProofs`: properties of the listing, the stats parse and `Gather` |
| `libvirt_fixtures.dfy` | module `LibvirtFixtures`: the unit tests' listings, a stats dump and the tests' runners |

### Behaviour that follows the code

- The `state.state` value is also stored as a numeric field. The `.name` test
  at libvirt.go:108 does not exclude it, so it reaches `ParseUint` at
  libvirt.go:111. A dump with `state.state=1` therefore yields the field
  `state.state = 1` as well as the tag `state = "1"`, and a non-numeric state
  fails the whole domain (`StateIsAlsoField`, `NonNumericStateFails`,
  `StatsDumpRecord`).
- `Gather` drops the error of `gatherDomain` (libvirt.go:41). A domain whose
  stats fail adds no record, and the cycle goes on with the next domain
  (`Gather`, `RecordsPerDomain`).
- The runner of `TestLibvirtNormal` answers `dominfo`, but the code asks for
  `domstats`. With that runner `Gather` succeeds and adds no record at all,
  so that test does not describe this code (`GatherStaleNormal`).

## Model

| member | source | states |
|---|---|---|
| GoStrings.IsSpace | plugins/inputs/libvirt/libvirt.go:62 | `unicode.IsSpace`: the Unicode White_Space code points `\t` to `\r`, space, U+0085, U+00A0, U+1680, U+2000 to U+200A, U+2028, U+2029, U+202F, U+205F and U+3000; this is what `Fields` and `TrimSpace` split on and strip |
| GoStrings.Split | plugins/inputs/libvirt/libvirt.go:54 | `strings.Split` on one separator: at least one piece; no piece holds the separator; more than one piece exactly when the separator occurs; joining the pieces with it gives the input back |
| GoStrings.SplitJoin | plugins/inputs/libvirt/libvirt.go:89 | splitting the newline-join of newline-free lines gives exactly those lines back |
| GoStrings.Index | plugins/inputs/libvirt/libvirt.go:97 | the position of the first occurrence of the separator, or -1 exactly when there is none |
| GoStrings.SplitN2 | plugins/inputs/libvirt/libvirt.go:97-99 | `SplitN(line, "=", 2)`: the whole line when it has no `=`; otherwise two pieces, the `=`-free text before the first `=` and everything after it |
| GoStrings.SplitAtFirst | plugins/inputs/libvirt/libvirt.go:97 | `a + "=" + b` with no `=` in a splits into exactly a and b, whatever b holds |
| GoStrings.HasSuffix | plugins/inputs/libvirt/libvirt.go:108 | `strings.HasSuffix`: the suffix is no longer than the text and equals its last characters |
| GoStrings.HasSuffixAppend | plugins/inputs/libvirt/libvirt.go:108 | any text followed by the suffix ends with it |
| GoStrings.HasSuffixSplit | plugins/inputs/libvirt/libvirt.go:108 | a text that ends with the suffix is some text followed by the suffix |
| GoStrings.Fields | plugins/inputs/libvirt/libvirt.go:62 | every field is non-empty and holds no space character |
| GoStrings.FieldsOfSpaces | plugins/inputs/libvirt/libvirt.go:62 | a line of space only has no fields |
| GoStrings.FieldsOfWord | plugins/inputs/libvirt/libvirt.go:62 | a non-empty space-free word is one field |
| GoStrings.FieldsAcrossSpace | plugins/inputs/libvirt/libvirt.go:62 | a non-empty run of space splits the fields: the fields of a + space + b are those of a followed by those of b |
| GoStrings.FieldsSkipSpace | plugins/inputs/libvirt/libvirt.go:62 | leading space changes no field |
| GoStrings.FieldsJoin | plugins/inputs/libvirt/libvirt.go:62 | Fields undoes joining non-empty space-free words with single spaces |
| GoStrings.TrimSpace | plugins/inputs/libvirt/libvirt.go:102-103 | the result is no longer than the input and neither starts nor ends with a space character |
| GoStrings.TrimSpaceStrips | plugins/inputs/libvirt/libvirt.go:102-103 | the input is some space, then the result, then some space: only surrounding space is removed |
| GoStrings.TrimSpacePadded | plugins/inputs/libvirt/libvirt.go:102-103 | trimming t padded with space on both sides gives t back when t has no surrounding space |
| GoStrings.TrimSpaceIdempotent | plugins/inputs/libvirt/libvirt.go:102-103 | trimming twice is trimming once |
| GoStrconv.BaseAndDigits | plugins/inputs/libvirt/libvirt.go:111 | base 0 selects base 2, 8, 10 or 16, and base 10 exactly when the literal does not start with `0`; `BasePrefixes` states which prefix selects which base |
| GoStrconv.BasePrefixes | plugins/inputs/libvirt/libvirt.go:111 | `0x`/`0X` select 16, `0b`/`0B` select 2 and `0o`/`0O` select 8 when at least one character follows; any other leading `0` selects 8 and is dropped; otherwise base 10; the digits are the literal minus a prefix of at most two characters |
| GoStrconv.AccumulateDigit | plugins/inputs/libvirt/libvirt.go:111 | one turn of ParseUint's digit loop: an underscore is skipped and remembered; a character that is not a digit of the base is a syntax error; n ≥ cutoff or n·base + d > 2^64 − 1 is a range error; otherwise n·base + d (meaning proved by `DigitStep`) |
| GoStrconv.Accumulate | plugins/inputs/libvirt/libvirt.go:111 | the digit loop over all digits, stopping at the first error (meaning proved by `AccumulateDigits`, `AccumulateInvalid` and `AccumulateDrop`) |
| GoStrconv.UnderscoreScan | plugins/inputs/libvirt/libvirt.go:111 | the scan of strconv's `underscoreOK`: every `_` follows a digit or the base prefix and is followed by a digit; other characters are left to the digit loop |
| GoStrconv.UnderscoreOK | plugins/inputs/libvirt/libvirt.go:111 | strconv's `underscoreOK`: an optional sign, then an optional base prefix, then a text `UnderscoreScan` accepts, hexadecimal letters counting as digits after `0x` (meaning proved by `ParseAcceptedUnderscores` and `ParseRejectedUnderscores`) |
| GoStrconv.ParsePrefixed | plugins/inputs/libvirt/libvirt.go:111-114 | each of `0b`, `0B`, `0o`, `0O`, `0x`, `0X` followed by valid digits of its base parses to their value, or gives exactly the range error when it exceeds 2^64 − 1 |
| GoStrconv.AccumulateDrop | plugins/inputs/libvirt/libvirt.go:111 | the digit loop skips underscores: its result is that over the digits without underscores, with the flag set exactly when there was one |
| GoStrconv.DropPrefix | plugins/inputs/libvirt/libvirt.go:111 | removing the underscores of a literal that `underscoreOK` accepts keeps its base, and removes the underscores of its digits only |
| GoStrconv.ParseAcceptedUnderscores | plugins/inputs/libvirt/libvirt.go:111-114 | a literal that `underscoreOK` accepts parses like the literal without its underscores; an error keeps its kind and names the literal as written |
| GoStrconv.ParseRejectedUnderscores | plugins/inputs/libvirt/libvirt.go:111-114 | a literal with an underscore that `underscoreOK` rejects fails to parse: with the digit loop's error when the loop fails on its digits, otherwise with the syntax error |
| GoStrconv.ParseUint | plugins/inputs/libvirt/libvirt.go:111-114 | every error is a `NumError` naming `ParseUint` and carrying the whole input |
| GoStrconv.ParseUintMeaning | plugins/inputs/libvirt/libvirt.go:111-114 | without `_`: the parse succeeds exactly when the text after the prefix is digits of the selected base whose value is at most 2^64 − 1, and then yields that value |
| GoStrconv.AccumulateDigits | plugins/inputs/libvirt/libvirt.go:111 | over valid digits the digit loop computes their positional value, and fails with a range error exactly when it exceeds 2^64 − 1 |
| GoStrconv.AccumulateInvalid | plugins/inputs/libvirt/libvirt.go:111 | a character that is not a digit of the base makes the digit loop fail |
| GoStrconv.DigitStep | plugins/inputs/libvirt/libvirt.go:111 | one turn of the loop with the cutoff test and the overflow test appends the digit, or gives a range error exactly when n·base + d exceeds 2^64 − 1 |
| GoStrconv.FormatBaseValue | plugins/inputs/libvirt/libvirt.go:111 | the reference formatter writes n as digits whose positional value is n |
| GoStrconv.ParseFormatted | plugins/inputs/libvirt/libvirt.go:111 | `0b`, `0o` and `0x` literals of any 64-bit value, and decimal literals of any positive 64-bit value, parse back to that value; 0 is covered by `ParseFormatUint` |
| GoStrconv.ParseFormatUint | plugins/inputs/libvirt/libvirt.go:111 | the decimal text of any 64-bit value, 0 included, parses back to it |
| GoStrconv.ParseLegacyOctal | plugins/inputs/libvirt/libvirt.go:111 | a leading `0` followed by octal digits is read as octal |
| GoStrconv.ParseDecimalOverflow | plugins/inputs/libvirt/libvirt.go:111-114 | decimal digits worth more than 2^64 − 1 give exactly the range error for that input |
| GoStrconv.ParseRejectsSign | plugins/inputs/libvirt/libvirt.go:111-114 | the empty string and any signed literal give exactly the syntax error for that input |
| LibvirtInput.ListHasHeader | plugins/inputs/libvirt/libvirt.go:54-58 | the `virsh list` output, when there is one, holds a newline, so `lines[2:]` is defined |
| LibvirtInput.ListingOf | plugins/inputs/libvirt/libvirt.go:56-69 | the listing loop over the lines after the header: blank lines are skipped, a line with fewer than three fields is the error, otherwise its second field is the next name (meaning proved by the `Listing…` lemmas) |
| LibvirtInput.DomainsOf | plugins/inputs/libvirt/libvirt.go:47-70 | what `listDomains` returns: the runner's error, or the listing of every line but the first two |
| LibvirtInput.StatLine | plugins/inputs/libvirt/libvirt.go:90-119 | the effect of one stats line after the first (meaning proved by `StatLineResult`, `StatLineState` and `StatLineFields`) |
| LibvirtInput.StatsFrom | plugins/inputs/libvirt/libvirt.go:89-121 | the stats lines applied in order, stopping at the first error |
| LibvirtInput.StatsOf | plugins/inputs/libvirt/libvirt.go:86-121 | a whole dump: every line but the first, from no fields and an empty state (meaning proved by `DumpContents`, `StatsSucceedsIff` and `StatsFirstError`) |
| LibvirtInput.Tags | plugins/inputs/libvirt/libvirt.go:123-126 | the tags of a record: exactly `domain` and `state` |
| LibvirtInput.DomainRecord | plugins/inputs/libvirt/libvirt.go:78-131 | what `gatherDomain` adds or returns: the runner's error, the error of the dump, or the `libvirt` record of its fields and tags (meaning proved by `DomainRecordShape`) |
| LibvirtInput.RecordsOf | plugins/inputs/libvirt/libvirt.go:40-42 | the records the loop of `Gather` adds, one for each domain in turn whose record succeeds (meaning proved by `RecordsPerDomain` and `RecordsOfAppend`) |
| LibvirtInput.Accumulator.AddFields | plugins/inputs/libvirt/libvirt.go:128 | appends exactly one record with the given measurement, fields and tags |
| LibvirtInput.UpdateTwice | plugins/inputs/libvirt/libvirt.go:115-118 | storing 0 and then the parsed value under a key is the same as storing the value |
| LibvirtInput.BlankStatLine | plugins/inputs/libvirt/libvirt.go:90-92 | a blank stats line changes neither the fields nor the state |
| LibvirtInput.ParseStatLine | plugins/inputs/libvirt/libvirt.go:97-119 | one line of the stats loop gives the new fields and state of `StatLine`, or its error: no `=`, or the ParseUint error |
| LibvirtInput.ParseDomainStats | plugins/inputs/libvirt/libvirt.go:86-121 | the stats loop returns the fields and the state of `StatsOf`, or the error of the first bad line |
| LibvirtInput.Libvirt.constructor | plugins/inputs/libvirt/libvirt.go:18-21 | the plugin holds the given URI and runner |
| LibvirtInput.Libvirt.ListDomains | plugins/inputs/libvirt/libvirt.go:47-70 | on a runner or line error, no domains and that error; otherwise the names of `DomainsOf` and no error |
| LibvirtInput.Libvirt.GatherDomain | plugins/inputs/libvirt/libvirt.go:78-131 | either adds exactly the record `DomainRecord` gives and returns no error, or returns that error and adds nothing |
| LibvirtInput.Libvirt.Gather | plugins/inputs/libvirt/libvirt.go:33-45 | a listing error is returned unchanged and adds nothing; otherwise no error, and the records of the listed domains are appended in listing order, failing domains adding none |
| LibvirtProofs.ListingSucceedsIff | plugins/inputs/libvirt/libvirt.go:58-65 | the listing succeeds exactly when every line after the header is empty or has at least three fields |
| LibvirtProofs.ListingCount | plugins/inputs/libvirt/libvirt.go:58-67 | a successful listing has one name per non-empty line |
| LibvirtProofs.ListingNameAt | plugins/inputs/libvirt/libvirt.go:62-66 | name i is the second field of the i-th non-empty line, which has at least three fields |
| LibvirtProofs.ListingNames | plugins/inputs/libvirt/libvirt.go:54-69 | a successful listing is, in line order, the second field of every non-empty line; every name is non-empty and space-free |
| LibvirtProofs.ListingFirstMalformed | plugins/inputs/libvirt/libvirt.go:62-65 | a failed listing reports the first non-empty line with fewer than three fields, and every line before it is accepted |
| LibvirtProofs.ListingOfBlankLines | plugins/inputs/libvirt/libvirt.go:58-61 | blank lines alone list no domain |
| LibvirtProofs.LastValueNone | plugins/inputs/libvirt/libvirt.go:115-118 | no last value for a key exactly when no line holds that key |
| LibvirtProofs.LastValueIsLast | plugins/inputs/libvirt/libvirt.go:115-118 | the last value of a key is the value of a line holding that key, and no later line holds it |
| LibvirtProofs.StatLineResult | plugins/inputs/libvirt/libvirt.go:97-114 | one stats line succeeds exactly when it is empty, or holds `=` and has a `.name` key or a value ParseUint accepts; otherwise it gives `LineError` |
| LibvirtProofs.StatLineState | plugins/inputs/libvirt/libvirt.go:104-106 | an accepted line sets the state to its value when its key is `state.state`, and keeps it otherwise |
| LibvirtProofs.StatLineFields | plugins/inputs/libvirt/libvirt.go:108-118 | an accepted line with a key not ending in `.name` stores the parsed value under the key, and changes nothing else |
| LibvirtProofs.StatsSucceedsIff | plugins/inputs/libvirt/libvirt.go:89-121 | a dump parses exactly when every stats line is accepted |
| LibvirtProofs.StatsFirstError | plugins/inputs/libvirt/libvirt.go:97-114 | a failed dump reports the error of the first rejected line, and every line before it is accepted |
| LibvirtProofs.StatsState | plugins/inputs/libvirt/libvirt.go:104-106 | the state is the value of the last `state.state` line, or what it was when there is none |
| LibvirtProofs.StatsFields | plugins/inputs/libvirt/libvirt.go:108-119 | a key not ending in `.name` holds the parsed value of its last line; every other key keeps what it had |
| LibvirtProofs.DumpContents | plugins/inputs/libvirt/libvirt.go:86-121 | a parsed dump has exactly the keys that occur on some line and do not end in `.name`, each with the parsed value of its last line; the state is the last `state.state` value, or "" |
| LibvirtProofs.NameKeysDropped | plugins/inputs/libvirt/libvirt.go:108-109 | no key ending in `.name` is ever a field |
| LibvirtProofs.StateKeyIsNotName | plugins/inputs/libvirt/libvirt.go:104-109 | `state.state` does not end in `.name`, so it is not dropped |
| LibvirtProofs.StateIsAlsoField | plugins/inputs/libvirt/libvirt.go:104-118 | when a `state.state` line occurs, the state is also a field, and ParseUint of the state tag is that field's value |
| LibvirtProofs.NonNumericStateFails | plugins/inputs/libvirt/libvirt.go:104-114 | a `state.state` value that ParseUint rejects fails the whole domain |
| LibvirtProofs.DomainRecordShape | plugins/inputs/libvirt/libvirt.go:123-128 | a domain's record is a `libvirt` record with exactly the tags `domain` and `state`, and the parsed fields |
| LibvirtProofs.RecordsOfAppend | plugins/inputs/libvirt/libvirt.go:40-42 | the records of two lists of domains are the records of the first followed by those of the second |
| LibvirtProofs.RecordsPerDomain | plugins/inputs/libvirt/libvirt.go:40-42 | Gather adds one record per domain whose stats parse, in listing order, and never more records than domains |
| LibvirtProofs.AllDomainsGathered | plugins/inputs/libvirt/libvirt.go:40-44 | when every domain parses, every listed domain has its record |
| LibvirtFixtures.FieldsOfRow | plugins/inputs/libvirt/libvirt_test.go:15-16 | the fields of a listing row are its id, its name and its state |
| LibvirtFixtures.TwoRowOutput | plugins/inputs/libvirt/libvirt_test.go:13-18 | a header, a rule, two rows and two blank lines list the two rows' names |
| LibvirtFixtures.MockListing | plugins/inputs/libvirt/libvirt_test.go:13-18 | listing `mockListStr` gives `vm1` then `vm2` |
| LibvirtFixtures.MockNoVms | plugins/inputs/libvirt/libvirt_test.go:20-23 | `mockListNoVmsStr` lists no domain, so no domain record is gathered |
| LibvirtFixtures.StatLineOfPair | plugins/inputs/libvirt/libvirt.go:97-119 | an indented `key=value` line with a trimmed key and value has the effect the loop body gives that key and value |
| LibvirtFixtures.ThreeLineDump | plugins/inputs/libvirt/libvirt.go:89-95 | for a header and three stats lines of which the last changes nothing, followed by two blank lines: the header is skipped, the lines apply in order starting from no fields and an empty state, and the blank lines change nothing |
| LibvirtFixtures.StateLine | plugins/inputs/libvirt/libvirt_test.go:30 | `  state.state=1` sets the state to "1" and stores the field `state.state = 1` |
| LibvirtFixtures.BalloonLine | plugins/inputs/libvirt/libvirt_test.go:35 | `  balloon.current=8388608` stores 8388608 |
| LibvirtFixtures.NetNameLine | plugins/inputs/libvirt/libvirt_test.go:64 | `  net.0.name=tap59ebedbf-aa` is accepted and changes nothing |
| LibvirtFixtures.DeviceNameIsNotNumber | plugins/inputs/libvirt/libvirt_test.go:64 | ParseUint rejects the device name, so only the `.name` rule keeps it from failing the domain |
| LibvirtFixtures.StatsDumpRecord | plugins/inputs/libvirt/libvirt_test.go:29-64 | a dump of `mockDomInfo1`'s lines 30, 35 and 64 under the header `Domain: 'vm1'` (the mock's header names another domain, and the header line is skipped either way) yields the record with fields `state.state = 1` and `balloon.current = 8388608`, and tags `domain = vm1` and `state = 1` |
| LibvirtFixtures.NoRecordsOfFailing | plugins/inputs/libvirt/libvirt.go:40-42 | two domains whose stats calls fail add no record |
| LibvirtFixtures.StaleNormalMock | plugins/inputs/libvirt/libvirt_test.go:143-153 | a runner that answers `list` with `mockListStr` but fails `domstats` lists vm1 and vm2 and yields no record |
| LibvirtFixtures.GatherNoVms | plugins/inputs/libvirt/libvirt_test.go:205-214 | with the runner of TestLibvirtNoVms, Gather returns no error and adds no record |
| LibvirtFixtures.GatherNotInstalled | plugins/inputs/libvirt/libvirt_test.go:216-225 | with the runner of TestLibvirtNotInstalled, Gather returns the runner's error and adds no record |
| LibvirtFixtures.GatherStaleNormal | plugins/inputs/libvirt/libvirt_test.go:171-203 | with the runner of TestLibvirtNormal, Gather returns no error and adds no record |

## Left out

- `runVirshCmd` (libvirt.go:72-76) runs a process. It is not part of this model. The runner is the `Virsh` parameter of `Libvirt`.
- `init` (libvirt.go:133-140), `SampleConfig` and `Description` (libvirt.go:25-31) are plugin registration and constant strings.
- telegraf's accumulator is reduced to the sequence of `AddFields` calls. How it stores, converts or timestamps fields is not part of this model.
- LibvirtInput.Libvirt.ListDomains requires a newline in the `virsh list` output (`ListHasHeader`), because `lines[2:]` at libvirt.go:58 panics without one. The panic is not modelled. `Gather` carries the same precondition.
- Error values: the `fmt.Errorf` messages of libvirt.go:64 and libvirt.go:100 become the structured errors `ListLineError(line)` and `DomainInfoError(domain, line)`. The message text is not modelled.
- GoStrconv.ParseUint: the value returned next to a range error (2^64 − 1) is not modelled, since the plugin drops it. Only base 0 with 64 bits is modelled.
- Strings are sequences of Unicode code points, so input that is not valid UTF-8 is not modelled. `unicode.IsSpace` is the full Unicode White_Space set, as in Go, not the ASCII subset.
- GoStrconv.ParseUint follows Go 1.13 and later (prefixes and `_` separators). Earlier Go versions parsed base 0 without them.
- The runner `Virsh` is a pure function of the URI and the arguments, so the same call always gets the same answer. A real `virsh` can answer differently from one call to the next, which shows when a listing names a domain twice, or when `Gather` runs more than once on the same `Libvirt` value (every run sees the same output); that is not modelled.
- The dead store `fields[k] = 0` (libvirt.go:115-117) is kept in `ParseStatLine`. `UpdateTwice` shows it has no effect. Go stores it as an `int` inside an `interface{}`, and that typing is not modelled.
- The expected record values of `TestLibvirtNormal` (libvirt_test.go:179-202) belong to a different output format (`dominfo`). They are not modelled; `GatherStaleNormal` states what that test's runner gives.
