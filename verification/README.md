# Network Monitoring Tool: a verified model of its core

The repository is a network monitor: it captures packets, receives NetFlow v9 and IPFIX
datagrams, matches what it sees against feeds of malicious addresses and names, and tells
people about it by digest and by an ungated export stream. This project models the parts of
its API server whose correctness is not visible from any one function, and proves it:

- **The templated flow codec.** Nested length-prefixed parsing of arbitrary bytes with learned
  templates (RFC 3954 and RFC 7011), the bounded template cache behind it, and the builders that
  write the same messages. `Netflow` is the walker, `Templates` and `Fields` the cache and its
  entries, `Datagrams` the builders, `NetflowTotality` what holds for any bytes, `RoundTrip` what
  the walker makes of what the builders write, `Withdrawals` what it makes of a template withdrawn.
  `FlowAttributes` says what each attribute of a record is, by element number, and `FlowMessages` what
  headers, sets and whole messages come to, by offset and set id.
- **Addresses and the indicator index.** IPv4, IPv6 and MAC text (`Addresses`, `AddressText`), which texts
  are addresses (`AddressGrammar`), mask arithmetic and routability (`Cidr`), operator prefixes (`Prefixes`)
  and what is written for them (`PrefixGrammar`), merged ranges with binary search (`Ranges`), the walk over a
  domain's parents (`Domains`), the index (`Indicators`), what it accepts (`Acceptance`), its whole runs
  (`IndicatorRuns`) and what its block hits report (`ReportedPrefixes`).
- **The notifier.** Digest messages (`Digests`), the gates, the queues and their timers
  (`Notifiers`), the steps of one notifier under the hourly ceiling (`NotifierRuns`), whole runs of the
  process across reloads (`ReloadRuns`), what the gates decide in them (`GateRuns`), and the export stream
  with `flush` (`ExportRuns`).
- **The collector's rebinds.** The socket, its counters and the restart chain (`Collectors`), and any
  interleaving of saves, restarts and bind results (`CollectorRuns`).
- **Migrations.** File names and version order (`Migrations`, and in characters and numbers
  `MigrationNames`), runs that fail anywhere (`MigrationRuns`), and what an undisturbed run executes and
  records (`Adoption`).
- **Two byte functions.** Frame decoding (`PacketDecode`) with its VLAN tags (`Vlan`) and its headers byte for
  byte (`PacketWire`), and cutting a UTF-8 line to a byte budget (`Syslog`).

`Radix`, `Text`, `Bytes`, `Options`, `Sequences`, `Sorting` and `OrderedMaps` hold what the source
takes from its language: numerals, strings, buffers, optional values, stable sort, and the
insertion-ordered map.

## How the model is built

Code that computes a value is a function. Code that changes things step by step is a class or a
method with a loop, proved equal to a specification function of its inputs or of the old state;
the laws are lemmas about those functions. An asynchronous operation is cut at its waits into
steps, anything may happen between two steps, and a law about runs quantifies over every finite
sequence of steps. A timer is whether it is set; a promise chain is the list of what hangs on it.

Numbers are exact integers. The source's 32-bit shifts and masks are written out on integers below
2^32; big-endian reads and writes are base-256 numerals. Settings, clocks, bind results, send
completions and transaction outcomes are parameters or steps.

Where comment and code disagree, the model follows the code:

- Redefining a template does not move it in the cache, so the victim of an eviction is the entry
  that first appeared earliest, not the one longest without redefinition
  (`api/src/flow/templates.ts:51-54`).
- A template with no fields is skipped, so an IPFIX withdrawal leaves the template in place:
  `Withdrawals.WithdrawalKeepsTemplate` (`api/src/flow/netflow-v9.ts:175-176`).
- A record of no bytes is counted as a record before the walker stops on it
  (`api/src/flow/netflow-v9.ts:249-254`).
- The record builder writes a one-byte length even for a payload of 255 bytes, which then reads as
  the long form's marker (`api/src/flow/test-datagrams.ts:144-147`).
- A CIDR is tested for reserved addresses at its two ends only. That keeps every reserved address
  out exactly for /15 and longer, and for /0 and /1, which never pass
  (`api/src/intel/match.ts:252`).
- Merging keeps the first entry's prefix, so the prefix reported for a hit need not contain the
  address: exactly the addresses past the end of the first block that starts their stretch are
  reported wrongly (`api/src/intel/match.ts:293-298`).
- Whoever asks for the notifier while a reload is flushing the old one builds a new one without its
  history, a status request or a closing sink as much as a finding, so the comment's rare case of a
  finding arriving in that instant is not the only one (`api/src/notify/notifier.ts:700-703`,
  `api/src/notify/notifier.ts:742-763`, `api/src/routes/notify.routes.ts:44`).
- Text after a second slash in a feed CIDR is ignored (`api/src/intel/match.ts:396`).
- A domain with a port is refused, not stripped of it (`api/src/intel/match.ts:196-201`).
- A tagged frame that carries a length instead of an EtherType loses its LLC header and its layers,
  because the length is looked up as an EtherType once the tags are off
  (`api/src/packet/decode.ts:207-225`).
- Adopting an older database's history is not one transaction, so an adoption that is cut short is
  taken for complete by the next run, which then executes what was adopted
  (`api/src/db/migrate.ts:190-219`).

## Model

| member | source | states |
|---|---|---|
| Fields.TemplateFixedLength | api/src/flow/fields.ts:65-72 | The loop gives the sum of the field widths, or nothing exactly when some field is of variable length. |
| Fields.FixedLength | api/src/flow/fields.ts:65-72 | None exactly when a field must be measured in the record; otherwise the total width. |
| Templates.CacheKeyInjective | api/src/flow/templates.ts:26-28 | Two template keys share a cache entry only when they are the same key, whatever characters the exporter name holds. |
| Templates.TemplateCache.Get | api/src/flow/templates.ts:36-38 | Looks the key up in the state without changing it. |
| Templates.TemplateCache.Set | api/src/flow/templates.ts:48-60 | The new state is the bounded store: a new key at the limit evicts the first key in order, a known key keeps its place. |
| Templates.TemplateCache.ForgetExporter | api/src/flow/templates.ts:63-72 | Removes exactly the entries whose key starts with the exporter and a bar, keeps the others in order, and returns how many went. |
| Templates.TemplateCache.Reset | api/src/flow/templates.ts:82-85 | Back to the empty cache and no evictions. |
| Templates.MatchCountIsSize | api/src/flow/templates.ts:64-71 | The count returned when forgetting is the number of distinct entries dropped. |
| Templates.BelongsToExactly | api/src/flow/templates.ts:66 | Exactly whose entries forgetting an exporter takes: its own and, only for names with a bar, those it reaches through the added bars. |
| Templates.ForgetTakesExactlyOwn | api/src/flow/templates.ts:62-71 | For names without a bar, forgetting an exporter takes its own entries and no other's. |
| Templates.CacheInvariant | api/src/flow/templates.ts:48-60 | In every reachable state the cache is within its limit (one entry at limit zero) and its entries stand in the order they first appeared. |
| Templates.VictimIsOldest | api/src/flow/templates.ts:50-58 | An entry leaves on a store only at the limit, for a new key, and it is the one that first appeared earliest among those held. |
| Templates.HeldIsNewest | api/src/flow/templates.ts:40-47 | Whatever is held under a key is the newest definition stored under it, over any run of stores and removals. |
| Templates.LookupAfterStore | api/src/flow/templates.ts:48-60 | A stored template is found under its key at once, even at limit zero. |
| Templates.EvictionsAreCounted | api/src/flow/templates.ts:48-85 | Over any run the eviction counter is the number of entries given up to make room since the last reset; entries forgotten on request are not counted. |
| OrderedMaps.OrderedMap.SetBoundedKeepsValid | api/src/packet/detect/types.ts:176-182 | Assignment behind a limit keeps a duplicate-free ordered map, gives up at most the first key, and never outgrows the limit or one entry. |
| Netflow.LocateField | api/src/flow/netflow-v9.ts:289-304 | Finds a field's bytes inside the body, for fixed, one-byte and three-byte length forms, or reports that they are not all there. |
| Netflow.ReadField | api/src/flow/netflow-v9.ts:286-383 | Reading one field leaves unchanged what the whole record comes to: the fold of all its field values in template order. |
| Netflow.DecodeRecord | api/src/flow/netflow-v9.ts:266-416 | A record decodes to the fold of its field values in template order and the bytes it consumed, or to nothing exactly when the layout does not fit. |
| FlowAttributes.RecordSays | api/src/flow/netflow-v9.ts:266-416 | For every template, list of field values and context, each attribute of the record by element number: the source address is the text of the last value that is element 8 with four bytes or 27 with sixteen and has no enterprise number, and none without one; likewise the destination (12, 28), ports (7, 11), protocol 4, packets (2, 86), bytes (1, 85), flags 6, MACs (56, 80), interfaces (10, 14), uptimes (22, 21), starts (150, 152, 154) and ends (151, 153, 155); start and end are those times where plausible, and the arrival otherwise. |
| FlowMessages.FieldOnWire | api/src/flow/netflow-v9.ts:286-307 | A value written bare, behind one byte of length or behind 255 and two bytes, wherever it stands, is found whole; cut anywhere before its end it is not found. |
| FlowMessages.ReadUnsignedExactly | api/src/flow/netflow-v9.ts:466-477 | A number of up to six bytes or of eight is read whole, of any other width modulo 2^48. |
| FlowMessages.NtpSays | api/src/flow/netflow-v9.ts:485-491 | Seconds since 1900 and a binary fraction, in Unix milliseconds; nothing with fewer than eight bytes or at zero seconds. |
| Netflow.ResolveTimes | api/src/flow/netflow-v9.ts:427-451 | The resolved start is never after the end, and an implausible clock falls back to the arrival time for both. |
| Netflow.NextRecord | api/src/flow/netflow-v9.ts:245-255 | One step of the record loop: the records still to come are this one and those behind it, with a zero-length step ending the set as malformed. |
| Netflow.ReadDataSet | api/src/flow/netflow-v9.ts:230-257 | The loop yields exactly the records a data set is cut into and whether it was malformed. |
| FlowMessages.EmptyRecord | api/src/flow/netflow-v9.ts:235-254 | Under a template whose fields have no width, a set that holds any byte gives one record of empty values and is malformed. |
| Netflow.ReadFieldSpecs | api/src/flow/netflow-v9.ts:181-208 | The loop reads exactly the announced number of field definitions, enterprise numbers included, or reports truncation. |
| FlowMessages.DefinitionReads | api/src/flow/netflow-v9.ts:181-206 | One definition, byte for byte: all sixteen bits name the element in NetFlow v9; in IPFIX the first bit announces an enterprise number, and without its four bytes the definition is cut off. |
| Netflow.ReadTemplateSet | api/src/flow/netflow-v9.ts:160-218 | The cache afterwards is the old one with the set's templates stored in order up to a truncation; a zero field count stores nothing. |
| FlowMessages.TemplatePadding | api/src/flow/netflow-v9.ts:170 | Fewer than four bytes behind the last template are padding, not a malformation. |
| Withdrawals.DefinesExactly | api/src/flow/netflow-v9.ts:168-212 | A template set defines something if and only if behind its leading withdrawals stands a header with fields whose definitions are all there. |
| Withdrawals.WithdrawalChangesNothing | api/src/flow/netflow-v9.ts:175-176 | A withdrawal in front of any template set changes nothing in what the set does, for any cache and counters. |
| Withdrawals.WithdrawalKeepsTemplate | api/src/flow/netflow-v9.ts:175-176 | After a withdrawal every lookup answers as before, from any cache, and nothing is called malformed. |
| Withdrawals.CutTemplateReported | api/src/flow/netflow-v9.ts:178-209 | A template whose definitions run past the set is reported malformed and not defined. |
| Netflow.DispatchSet | api/src/flow/netflow-v9.ts:127-151 | One set changes cache and counters as its id says: template, options template, data with or without a template, or malformed. |
| Netflow.ReadSet | api/src/flow/netflow-v9.ts:114-153 | Reads the set at the offset and steps over it so that the outcome of the whole walk is unchanged; an impossible length stops the walk. |
| Netflow.WalkSets | api/src/flow/netflow-v9.ts:111-156 | The set loop equals cutting the message into sets first and applying them in order afterwards. |
| Netflow.ParseTemplated | api/src/flow/netflow-v9.ts:74-157 | Result and cache are those of the specification: header, then sets, then records, for any bytes and any cache. |
| FlowMessages.HeaderSays | api/src/flow/netflow-v9.ts:74-112 | By offset: domain, boot time and end of a NetFlow v9 message; domain and declared end of an IPFIX one, doubted exactly when it is below 16 or past the datagram. |
| FlowMessages.TooShort | api/src/flow/netflow-v9.ts:74-86 | Fewer than 20 or 16 bytes are malformed once and change nothing else. |
| FlowMessages.SetEffects | api/src/flow/netflow-v9.ts:127-151 | By set id and dialect: templates 0 and 2, options templates 1 and 3, data without a template counted as pending, every other id below 256 malformed. |
| FlowMessages.DataSetSays | api/src/flow/netflow-v9.ts:230-257 | Data under a known template adds its records in order, each saying what its own values say. |
| FlowMessages.MalformedAddsUp | api/src/flow/netflow-v9.ts:74-157 | A message is malformed once per malformation of its sets, once if its length is doubted, and once if it ends where no set is possible. |
| NetflowTotality.SetsTileMessage | api/src/flow/netflow-v9.ts:113-154 | Re-encoding the sets found gives back exactly the bytes walked: sets tile a prefix of the message, disjoint and in order. |
| NetflowTotality.WalkStopsWhere | api/src/flow/netflow-v9.ts:113-123 | The walk stops where no further set is possible and calls it malformed exactly when there was room for one more set header. |
| NetflowTotality.RecordsTileBody | api/src/flow/netflow-v9.ts:230-257 | The records of a set are consecutive cuts of its body, each laid out where the previous one ended, all but the last of positive size. |
| NetflowTotality.RecordsBounded | api/src/flow/netflow-v9.ts:235-256 | A set yields no more records than it has bytes and at most one malformed mark, zero-length templates included. |
| NetflowTotality.LayoutTruncated | api/src/flow/netflow-v9.ts:286-307 | Cutting the buffer hides a record exactly when the cut falls inside it. |
| NetflowTotality.LayoutShifted | api/src/flow/netflow-v9.ts:286-307 | Bytes in front of a record do not influence its values or its length. |
| NetflowTotality.RecordIsLocal | api/src/flow/netflow-v9.ts:266-307 | A record taken out of its set decodes to the same values: nothing outside its own bytes is read. |
| NetflowTotality.ResultBounded | api/src/flow/netflow-v9.ts:74-157 | For every datagram and every cache the records are at most as many as the bytes, and each counter at most as many as four-byte set headers fit, with two to spare. |
| NetflowTotality.CacheAfterIsRun | api/src/flow/netflow-v9.ts:211-216 | Whatever datagrams arrive, the cache is one that a run of stores from empty reaches. |
| NetflowTotality.CacheBoundedUnderAnyTraffic | api/src/flow/templates.ts:48-60 | No traffic from any exporters grows the cache past its limit. |
| Bytes.WriteUint | api/src/flow/test-datagrams.ts:195-203 | Writes the big-endian digits in place at an offset and touches no other byte. |
| Datagrams.BuildTemplateSet | api/src/flow/test-datagrams.ts:111-130 | The bytes are set id, total length, template id, field count and the field definitions with enterprise numbers. |
| Datagrams.BuildRecord | api/src/flow/test-datagrams.ts:141-160 | The bytes are the fields' encodings in template order: cut or zero-padded on the left to the template's width, or length-prefixed. |
| Datagrams.AppendValue | api/src/flow/test-datagrams.ts:143-158 | One field appended leaves the record still to be written behind it unchanged. |
| Datagrams.BuildDataSet | api/src/flow/test-datagrams.ts:133-138 | The bytes are set id, length, the records, and zeros up to a multiple of four. |
| Datagrams.BuildIpfixMessage | api/src/flow/test-datagrams.ts:162-171 | A header declaring the true total length, then the sets. |
| Datagrams.BuildNetflowV9Message | api/src/flow/test-datagrams.ts:173-183 | A 20-byte header, then the sets. |
| RoundTrip.TemplateSetReadsBack | api/src/flow/netflow-v9.ts:160-218 | A built template set defines exactly the template described, in both dialects. |
| RoundTrip.VariableFieldReadsBackExactly | api/src/flow/test-datagrams.ts:145-147 | A written variable-length field is read back whole if and only if its payload is at most 254 bytes. |
| RoundTrip.RecordReadsBack | api/src/flow/netflow-v9.ts:266-307 | An encoded record, whatever follows it, is laid out as exactly the values it was built from. |
| RoundTrip.EmptyRecords | api/src/flow/netflow-v9.ts:235-243 | An encoded record is empty exactly when its template gives nothing to measure it by. |
| RoundTrip.DataSetReadsBackExactly | api/src/flow/netflow-v9.ts:230-257 | For any records and any padding: the walker returns exactly the encoded values with nothing malformed when records can be told from padding, and never otherwise. |
| RoundTrip.SetsReadBack | api/src/flow/netflow-v9.ts:113-154 | Encoded sets written one after another are cut back into the same sets. |
| RoundTrip.MessageRoundTrip | api/src/flow/netflow-v9.ts:74-157 | A template set and a data set in one message parse, from any cache and in both dialects, to exactly the encoded records in order, nothing malformed, nothing pending. |
| RoundTrip.MessageRoundTripExactly | api/src/flow/netflow-v9.ts:230-257 | That round trip holds if and only if the records can be told from the padding, which a sender can work out before sending. |
| FlowMessages.MessageSays | api/src/flow/netflow-v9.ts:74-157 | The records parsed from a built message say, attribute by attribute, what was sent, for any separable records, any template and either dialect. |
| FlowMessages.SeparableMeans | api/src/flow/netflow-v9.ts:235-243 | When records can be told from padding: without variable fields, when a record has bytes and the padding is shorter than one; with some, when the padding is shorter than the number of fields and the last record with it is not. |
| RoundTrip.FitKeepsNumber | api/src/flow/test-datagrams.ts:153-157 | Fitting a number to the template's width keeps it whenever it fits. |
| RoundTrip.ReducedSizeReadsBack | api/src/flow/netflow-v9.ts:466-477 | A counter sent in any width it fits is read back exactly; at seven bytes or beyond eight it must fit six. |
| RoundTrip.NtpReadsBackExactly | api/src/flow/netflow-v9.ts:485-491 | Milliseconds to NTP and back are exact for multiples of 125 ms and one less otherwise. |
| Addresses.FindBestRun | api/src/packet/addresses.ts:35-50 | The single scan finds the leftmost of the longest zero runs, or none. |
| Addresses.BestRunIsLeftmostLongest | api/src/packet/addresses.ts:35-50 | The run that is compressed is the leftmost longest one (section 4.2 of RFC 5952), and no other run is. |
| Addresses.PrintIpv6 | api/src/packet/addresses.ts:29-58 | The printed text is the groups with that run, if two or more long, replaced by a double colon. |
| Addresses.GroupsValue | api/src/packet/addresses.ts:30-33 | The groups are the base-65536 digits of the sixteen bytes read as one number. |
| AddressGrammar.PrintedIpv6 | api/src/packet/addresses.ts:29-58 | The text is the groups, colons between, with two colons for the leftmost longest zero run of two or more and for no other. |
| AddressGrammar.HexIsShortest | api/src/packet/addresses.ts:52 | Each group is printed in lower-case hexadecimal without a leading zero. |
| AddressGrammar.PrintedMac | api/src/packet/addresses.ts:4-10 | A MAC address is printed as six pairs of lower-case hexadecimal digits, colons between, each pair its byte. |
| AddressText.ReadDottedQuad | api/src/intel/match.ts:123-136 | The loop reads a dotted quad as a base-256 number or refuses it: four parts of one to three digits, none over 255. |
| AddressGrammar.QuadAccepted | api/src/intel/match.ts:123-136 | Four runs of one to three decimal digits of at most 255, dots between, are read as their base-256 number. |
| AddressGrammar.OnlyQuads | api/src/intel/match.ts:123-136 | Nothing else is read as an IPv4 address. |
| AddressText.Ipv4Bound | api/src/intel/match.ts:134-135 | An accepted IPv4 text denotes a number below 2^32. |
| AddressText.Ipv4PrintRead | api/src/net/prefix.ts:65-67 | Printing an IPv4 number and reading it gives the number back. |
| AddressText.ReadIpv4RoundTrip | api/src/packet/addresses.ts:13-20 | A printed packet address reads back as its four bytes. |
| Text.TrimTakes | api/src/intel/match.ts:151 | Trimming takes blanks off both ends and nothing else, so any blanks around a text change nothing. |
| Text.SpacesAre | api/src/intel/match.ts:151 | Which characters are blanks, by code point. |
| Text.LowerIs | api/src/intel/match.ts:151 | Lower case, character by character, for ASCII. |
| AddressText.Canonicalize | api/src/intel/match.ts:150-194 | The canonicaliser's steps and loop equal the specification: elision expanded, groups checked, leading zeros dropped. |
| AddressGrammar.FullAccepted | api/src/intel/match.ts:150-194 | Eight groups of one to four hexadecimal digits, in any case and between any blanks, come out as their values. |
| AddressGrammar.ElidedAccepted | api/src/intel/match.ts:150-194 | Two colons between runs of groups stand for as many zero groups as are missing, one at least. |
| AddressGrammar.OnlyAddresses | api/src/intel/match.ts:150-194 | Nothing else is read as an IPv6 address. |
| AddressText.CanonicalIsCanonicalText | api/src/intel/match.ts:150-194 | Whatever is accepted comes out as the eight shortest groups of some address, the one its groups denote. |
| AddressText.CanonicalOfCanonical | api/src/intel/match.ts:150-194 | The canonical text is its own canonical form. |
| AddressText.CanonicalOfCompressed | api/src/intel/match.ts:173-184 | What the compressed printer leaves out the canonicaliser puts back, for every address. |
| AddressText.ReadIpv6Value | api/src/net/prefix.ts:48-54 | The loop computes the base-65536 value of the groups. |
| AddressText.BigIntPrintRead | api/src/net/prefix.ts:48-63 | Every 128-bit number survives printing and reading, and its printed form is canonical. |
| AddressText.PrintThenParse | api/src/packet/addresses.ts:29-58 | For all sixteen-byte addresses, canonicalising the printed text gives the eight minimal groups, whose value is the address read big-endian. |
| AddressText.AddressesNeverCollide | api/src/intel/match.ts:138-149 | Two packet addresses have the same canonical form exactly when they are the same sixteen bytes. |
| AddressText.SpellingsMeet | api/src/intel/match.ts:138-149 | Two accepted spellings share a canonical form exactly when they denote the same 128-bit number; canonicalising twice changes nothing. |
| Cidr.MaskIsHighOnes | api/src/intel/match.ts:410 | The shifted mask is the top bits set and the rest clear, for every length. |
| Cidr.AndHighOnes | api/src/intel/match.ts:411 | Masking with high ones clears exactly the low bits. |
| Cidr.OrLowOnes | api/src/intel/match.ts:412 | Setting the low bits of an aligned number adds them. |
| Cidr.MaskedBlock | api/src/intel/match.ts:410-413 | The mask arithmetic gives the first and last address of the aligned block around the base address. |
| Cidr.ParsedBlock | api/src/intel/match.ts:395-414 | A parsed CIDR is the aligned block of its prefix length around its written address. |
| PrefixGrammar.FeedBlock | api/src/intel/match.ts:395-414 | A feed's block is an IPv4 address, a slash and a decimal length of at most 32, read as the aligned block of that length around the address; what stands behind a second slash is ignored, and anything else is refused. |
| PrefixGrammar.NoFeedBlock | api/src/intel/match.ts:395-398 | Text without a slash is no block. |
| Cidr.BlockInPair | api/src/intel/match.ts:252 | A block of /15 or longer lies in one /16 or is an aligned pair of them. |
| Cidr.EvenBlockDecides | api/src/intel/match.ts:89-99 | In an aligned pair of /16 blocks the even one is reserved whenever the odd one is. |
| Cidr.EndsSufficeExactly | api/src/intel/match.ts:251-252 | Testing only the two ends keeps every reserved address out of an accepted block if and only if the prefix length is at least 15 or at most 1. |
| Cidr.NonRoutableV4Exactly | api/src/intel/match.ts:89-99 | The refused IPv4 addresses by value, in numerals: 0/8, 10/8, 100.64.0.0/10, 127/8, 169.254.0.0/16, 172.16.0.0/12, 192.168.0.0/16, and 224.0.0.0 and above. |
| Ranges.MergeSorted | api/src/intel/match.ts:289-299 | The merge loop equals the fold of the merge step over the sorted list. |
| Ranges.MergeIsNormal | api/src/intel/match.ts:289-299 | Merging a sorted list gives sorted ranges with a gap after each, covering exactly what the list covers. |
| Ranges.NormalIsUnique | api/src/intel/match.ts:278-284 | At most one list of sorted, non-touching ranges covers a given set of addresses. |
| Ranges.OrderDoesNotMatter | api/src/intel/match.ts:285-303 | Sealing the same entries in another order gives the same ranges. |
| Ranges.SealedIsAttributed | api/src/intel/match.ts:293-298 | Every merged range carries the attribution of the first entry that starts where it does. |
| Ranges.BatchesDoNotMatter | api/src/intel/match.ts:285-303 | Sealing on top of a sealed list equals sealing everything at once, attribution included. |
| Ranges.FindRange | api/src/intel/match.ts:373-391 | The binary search returns what looking at every range would. |
| Ranges.OnlyLastStart | api/src/intel/match.ts:372-390 | Of the ranges starting at or below an address only the last can hold it. |
| Domains.FindParent | api/src/intel/match.ts:347-353 | The loop tries the name and its parents from the longest down, never the last label alone. |
| Domains.SuffixIsParent | api/src/intel/match.ts:347-349 | A dot-separated suffix of a name is the join of some of its last labels. |
| Domains.WalkFindsLongest | api/src/intel/match.ts:342-354 | The walk hits exactly when a listed name is the name or a dot-suffix of it, and returns the longest such name. |
| Domains.HostNameAccepted | api/src/intel/match.ts:197-211 | At most 253 letters, numerals, dots, hyphens and underscores with a last label that starts with a letter, in any case, between any blanks and with or without a final dot, are read as that name. |
| Domains.OnlyHostNames | api/src/intel/match.ts:197-211 | Nothing else is read as a name. |
| Indicators.IndicatorSet.Add | api/src/intel/match.ts:231-276 | The whole new state and the verdict: refused when full, malformed or reserved, otherwise recorded under its kind and counted for its feed. |
| Acceptance.HostAccepted | api/src/intel/match.ts:241-247 | A host is accepted if and only if its text is an address and the address is not reserved. |
| Acceptance.BlockAccepted | api/src/intel/match.ts:248-256 | A block is accepted if and only if its text parses and neither end is reserved. |
| Acceptance.HostV6Accepted | api/src/intel/match.ts:257-264 | An IPv6 host is accepted if and only if its text is an address and not reserved, and is kept by its groups. |
| Acceptance.OthersAccepted | api/src/intel/match.ts:240-276 | A name is accepted if and only if it is a host name; text that is no address of its kind is refused. |
| Acceptance.NoteKept | api/src/intel/match.ts:237-238 | The note kept is the feed's without the blanks around it; a blank one is none. |
| Indicators.IndicatorSet.Seal | api/src/intel/match.ts:285-303 | The ranges become the sealed list of old ranges and pending ones; nothing else changes. |
| Indicators.IndicatorSet.MatchIp | api/src/intel/match.ts:306-332 | Exact host first, then the range holding the address, as a scan would find it. |
| Indicators.IndicatorSet.MatchDomain | api/src/intel/match.ts:342-354 | The first listed parent along the walk, with its feed. |
| IndicatorRuns.RunsAreConsistent | api/src/intel/match.ts:213-303 | In every reachable state the tables, ranges and per-feed counts agree with the accepted entries, and the index never outgrows its capacity. |
| IndicatorRuns.AddsAreLoggedOrRejected | api/src/intel/match.ts:231-276 | Accepted and rejected indicators add up to all indicators offered. |
| IndicatorRuns.NothingRefused | api/src/intel/match.ts:232-235 | Below capacity exactly the well-formed, routable indicators are accepted. |
| IndicatorRuns.MatchIpIsScan | api/src/intel/match.ts:306-332 | After a seal an IPv4 lookup hits exactly when an accepted host is the address or an accepted CIDR contains it. |
| IndicatorRuns.MatchIpAttribution | api/src/intel/match.ts:317-331 | A listed host is reported on the newest feed's word; a block match on that of the first entry at the left end of the covered stretch. |
| IndicatorRuns.MatchIpv6IsScan | api/src/intel/match.ts:309-314 | An IPv6 lookup hits exactly when an accepted entry canonicalises to the same text, and reports what was observed, that text, and the newest feed's word. |
| IndicatorRuns.MatchDomainIsScan | api/src/intel/match.ts:342-354 | A domain lookup hits exactly when an accepted domain is the name or a parent of it, and reports the name observed, the longest such domain, and the newest feed's word. |
| IndicatorRuns.SealedRangesAreDetermined | api/src/intel/match.ts:285-303 | Below capacity the sealed ranges depend only on which indicators were added, not on order, repeats or where the seals fell. |
| IndicatorRuns.AcceptedBlockIsRoutable | api/src/intel/match.ts:248-256 | An accepted block whose written length is at least 15 holds no reserved address. |
| IndicatorRuns.NonRoutableV6Exactly | api/src/intel/match.ts:110-121 | The refused IPv6 addresses by value: the unspecified and loopback addresses, fe80::/10, fc00::/7 and ff00::/8. |
| Acceptance.NothingReserved | api/src/intel/match.ts:231-276 | Over any run no accepted host, and neither end of an accepted block, is reserved, in IPv4 and in IPv6. |
| Acceptance.ReservedNeverListed | api/src/intel/match.ts:317-331 | In no reachable state is a reserved IPv4 address held as a host. |
| ReportedPrefixes.ReportedPrefixHoldsExactly | api/src/intel/match.ts:285-331 | For every address of a covered stretch, in any sealed run: it is listed by itself, or the prefix reported is that of the first accepted block starting where the stretch starts, and holds the address if and only if that block reaches it. |
| ReportedPrefixes.StretchReportsExactly | api/src/intel/match.ts:293-298 | Over a whole stretch every prefix reported holds its address if and only if that first block reaches the end of the stretch or all addresses behind it are listed by themselves. |
| ReportedPrefixes.FirstOfStretch | api/src/intel/match.ts:248-256 | The first accepted block of a stretch is what its own text parses to, starts the stretch and does not outrun it. |
| ReportedPrefixes.NeighboursMisreport | api/src/intel/match.ts:293-298 | Any two adjacent accepted blocks, however written: after a seal every address of the second is reported with the prefix of the first, which does not hold it. |
| ReportedPrefixes.MisreportedAddress | api/src/intel/match.ts:317-331 | One such run: 8.8.8.0/25 and 8.8.8.128/25 sealed, 8.8.8.200 looked up. |
| Prefixes.CidrOfParts | api/src/net/prefix.ts:106-108 | Delegating to the feed parser gives the aligned block of the written address, or nothing exactly when the address is malformed. |
| Prefixes.ParsedShape | api/src/net/prefix.ts:81-111 | Every successful parse is an aligned block around the written address, of length at least one; PrefixGrammar.WrittenLength says which length. |
| PrefixGrammar.BareAddress | api/src/net/prefix.ts:81-111 | A bare address is a prefix of 32 or 128 bits that starts and ends at that address. |
| PrefixGrammar.HoldsItself | api/src/net/prefix.ts:122-138 | It contains exactly the texts that read as that address. |
| PrefixGrammar.WrittenLength | api/src/net/prefix.ts:41-111 | An address with a slash and more is the aligned block of the written length around it if that is decimal, at least one and at most 32 or 128; otherwise it is refused. |
| PrefixGrammar.NoAddress | api/src/net/prefix.ts:81-111 | Text that is no address is refused with a length and without. |
| Prefixes.ReparseIsIdentical | api/src/net/prefix.ts:81-111 | Re-parsing the stored text gives the identical prefix. |
| Prefixes.TopIsBits | api/src/net/prefix.ts:97-100 | Dividing by the block size keeps exactly the first bits of an address. |
| Prefixes.ContainsIsSameBits | api/src/net/prefix.ts:122-138 | A prefix contains an address exactly when the address parses in the same family and agrees on the first bits with the address the prefix was written with. |
| Prefixes.NestedOrDisjoint | api/src/net/prefix.ts:81-138 | Any two prefixes of one family are nested, the longer inside, or disjoint. |
| Prefixes.PrintIpv6Value | api/src/net/prefix.ts:57-63 | The shifting loop prints the eight base-65536 digits. |
| Digests.CountSeverities | api/src/notify/notifier.ts:610-613 | The counting loop gives the count map of the batch. |
| Digests.CountMapCounts | api/src/notify/notifier.ts:610-613 | One entry per severity present, holding how many findings have it. |
| Digests.BuildNotification | api/src/notify/notifier.ts:599-635 | The message built step by step is the specified digest of the batch. |
| Digests.DigestSummarises | api/src/notify/notifier.ts:599-635 | A digest lists the eight most urgent of its batch in order, accounts for all the rest as omitted, counts by severity, and carries the most urgent severity of the whole batch. |
| Digests.DigestLists | api/src/notify/notifier.ts:615-635 | No finding listed comes after one left out: by place in the severity order, and at equal severity by occurrences. |
| Digests.NotifiableSays | api/src/notify/types.ts:140-170 | What leaves of a finding is all of it but the evidence, and that exactly where it may leave. |
| Digests.BuildExport | api/src/notify/notifier.ts:372-391 | The export message is the specified one; its severity is found by the search over the severity order. |
| Digests.ExportMessageSays | api/src/notify/notifier.ts:372-391 | An export message holds the whole batch in order, omits nothing, and counts each severity. |
| Digests.ExportSeverityIsMostUrgent | api/src/notify/notifier.ts:377-379 | That severity is the most urgent of the batch, the same a digest would report. |
| Notifiers.Notifier.HourlyCountAt | api/src/notify/notifier.ts:580-586 | The loop drops exactly the leading timestamps older than an hour and returns how many are left. |
| Notifiers.Notifier.Consider | api/src/notify/notifier.ts:194-255 | The export queue sees the finding first and always; the verdict and the digest state are those of the gates in order. |
| Notifiers.Notifier.Gate | api/src/notify/notifier.ts:217-254 | Verdict and new digest state: disabled, below threshold, throttled, rate-limited, or queued with the throttle and the timer set. |
| GateRuns.GateDecides | api/src/notify/notifier.ts:217-254 | The verdict by places in the severity order: disabled exactly when switched off or no channel is configured; otherwise below threshold exactly when the finding is less urgent than asked for; otherwise throttled exactly when its key was accepted less than 1000 times throttleSeconds milliseconds ago; otherwise rate-limited exactly when maxPerHour dispatches held fall in the hour before. |
| GateRuns.GateLeaves | api/src/notify/notifier.ts:234-254 | What gets through is remembered by its key, queued below 200 waiting and counted as omitted from there on, and sets the timer; what does not leaves queue and throttle alone. |
| GateRuns.ThrottleBounded | api/src/notify/notifier.ts:87-112 | The throttle remembers at most 4096 keys. |
| Notifiers.Notifier.Dispatch | api/src/notify/notifier.ts:491-517 | Nothing while sending or empty; otherwise the queue and overflow leave as one digest and the time is recorded. |
| Notifiers.Notifier.SettleDispatch | api/src/notify/notifier.ts:528-533 | Sending ends, and a timer is set if anything arrived meanwhile. |
| Notifiers.Notifier.OnDigestTimer | api/src/notify/notifier.ts:483-486 | The digest timer is spent and a dispatch starts if it can. |
| Notifiers.Notifier.EnqueueExport | api/src/notify/notifier.ts:290-334 | Dropped and counted at ten thousand, sent at two hundred, otherwise left to the timer. |
| Notifiers.Notifier.FlushExports | api/src/notify/notifier.ts:348-352 | One more send is hung behind those before it. |
| Notifiers.Notifier.SendExportBatch | api/src/notify/notifier.ts:354-393 | The timer goes and the whole queue leaves as one message, unless there is nothing to send or no one to send it to. |
| Notifiers.Notifier.SettleExport | api/src/notify/notifier.ts:348-352 | A settled send lets the next one in the chain begin and changes nothing else. |
| Notifiers.Notifier.OnExportTimer | api/src/notify/notifier.ts:330-333 | The export timer is spent and one more send is hung on the chain. |
| ReloadRuns.QueuedIsConserved | api/src/notify/notifier.ts:194-255 | Over any run of the process, through any reloads, the queued verdicts are the findings listed in or omitted from digests, plus those still waiting on some notifier. |
| NotifierRuns.TestOpensGate | api/src/notify/notifier.ts:225-232 | Passing the ceiling test means that fewer dispatches than the ceiling fell in the hour before, pruned timestamps included. |
| NotifierRuns.SpacedCount | api/src/notify/notifier.ts:580-586 | Dispatches of which no run one longer than the ceiling fits in an hour number at most the ceiling in any closed hour. |
| ReloadRuns.HourlyBound | api/src/notify/notifier.ts:738-763 | Over any run, every closed hour holds at most max(0, maxPerHour) dispatches, and as many again for each notifier built while another was being flushed. |
| ReloadRuns.HourlyCeiling | api/src/notify/notifier.ts:217-254 | Every closed hour holds at most max(0, maxPerHour) digest dispatches, over any run and across any reloads during which nothing builds a notifier: no finding, no status request, no closing sink. |
| ReloadRuns.HourlyBoundReached | api/src/notify/notifier.ts:700-703 | The bound is reached for every ceiling and every n: n status requests during reloads, no finding arriving in any, and 1 + n times the ceiling in an hour; one request breaks any ceiling of at least one. |
| GateRuns.ArrivalDecided | api/src/notify/notifier.ts:217-254 | Over any run with one clock, one ceiling and quiet reloads, the verdict on an arrival in terms of what has happened: when its key was last queued, by this notifier or one before a reload, unless 4096 others have crowded it out, and how many digests the process sent in the hour before. |
| GateRuns.QueuedApart | api/src/notify/notifier.ts:221-223 | Two queued findings of one key are at least 1000 times throttleSeconds milliseconds apart, across quiet reloads, unless the key has been crowded out of a full throttle by the second. |
| GateRuns.NothingBelowThresholdSent | api/src/notify/notifier.ts:217-219 | Over any run, no finding in a digest that is sent is less urgent than its notifier was told to report. |
| ExportRuns.ExportStream | api/src/notify/notifier.ts:290-402 | In every run the findings of the messages handed to the channels, one message after another, and then the queue are exactly the offers there was room for, in order; each message is complete, drops are counted, and no two sends are under way together. |
| ExportRuns.OfferGoes | api/src/notify/notifier.ts:290-334 | Where an offer goes: nowhere without a configured exporting channel, into the count of drops at 10,000 waiting, else to the end of the queue, with a send hung on the chain from the 200th on and the timer set below. |
| ExportRuns.EvidenceAsAllowed | api/src/notify/notifier.ts:194-255 | Over any run evidence is in the export messages if and only if it may leave there, and in the digest queue if and only if it may leave by a digest. |
| ExportRuns.ExportsIgnoreTheGates | api/src/notify/notifier.ts:204-217 | The same events leave the export stream in the same state whatever the enabled flag, severity gate, throttle and ceiling are. |
| ExportRuns.PromiseKept | api/src/notify/notifier.ts:336-352 | An awaited export send, once begun, has taken everything queued before it was asked for, and once settled has sent it. |
| ExportRuns.FlushHandsOver | api/src/notify/notifier.ts:455-479 | When flush resolves, on a notifier built with or without carried history, exports kept before the call have been sent and settled, findings queued before it have been handed over, and with no later arrivals the queue is empty. |
| ExportRuns.NothingStranded | api/src/notify/notifier.ts:324-333 | At every point whatever waits has a timer set, a send queued or under way, or a flush that has yet to reach it. |
| ExportRuns.FlushLeavesNothingStranded | api/src/notify/notifier.ts:455-479 | What is still queued when a flush resolves has a timer set or a send under way. |
| Collectors.FlowCollector.BindingIsOutOfDate | api/src/flow/collector.ts:390-395 | True exactly for an open socket bound to another port or address than the settings in force. |
| Collectors.FlowCollector.ResetForRebind | api/src/flow/collector.ts:366-380 | Every counter of the binding is back to zero. |
| Collectors.FlowCollector.ResetRefusals | api/src/flow/collector.ts:420-423 | Refusals restart together with the total they are compared with; nothing else changes. |
| Collectors.FlowCollector.CountDatagram | api/src/flow/collector.ts:456-461 | One datagram counted, and refused exactly when its sender is not allowed. |
| Collectors.Restarts.Stop | api/src/flow/collector.ts:425-438 | The socket is let go before its handle is closed, and with no socket the stop goes straight on. |
| Collectors.Restarts.SocketClosed | api/src/flow/collector.ts:430-445 | Once the handle is closed the binding and the sink are let go. |
| Collectors.Restarts.Start | api/src/flow/collector.ts:708-726 | Counters reset, settings read, and a handle opened unless switched off or already listening. |
| Collectors.Restarts.Bound | api/src/flow/collector.ts:318-321 | The handle becomes the socket, bound to the settings it was opened with. |
| Collectors.Restarts.BindFailed | api/src/flow/collector.ts:297-306 | The failed handle is closed and no socket is left. |
| Collectors.Restarts.RestartFlowCollector | api/src/flow/collector.ts:698-706 | One more restart is hung behind those before it. |
| CollectorRuns.RunsAreSound | api/src/flow/collector.ts:675-733 | Every interleaving keeps the invariant: restarts in turn, handles accounted for by phase, the last restart on current settings, counters of this binding. |
| CollectorRuns.RebindsNeverOverlap | api/src/flow/collector.ts:696-706 | No two rebinds are ever under way together. |
| CollectorRuns.AtMostOneHandle | api/src/flow/collector.ts:224-319 | At most one handle is open, an open socket is that handle and has its sink, and an idle process without a socket holds neither. |
| CollectorRuns.FailKeeps | api/src/flow/collector.ts:297-306 | After a failed bind no handle is open and no socket is set. |
| CollectorRuns.SettledOnCurrentSettings | api/src/flow/collector.ts:675-733 | Once the chain is idle and every save has queued its restart, a socket is open if and only if the collector is switched on and the last bind neither failed nor was ended by an error, and it is bound to the settings in force. |
| CollectorRuns.CountersBelongToTheBinding | api/src/flow/collector.ts:335-380 | While a socket is open the counters cover exactly what it has brought, and the refusals the same span as their total. |
| CollectorRuns.ChainNeverStuck | api/src/flow/collector.ts:696-706 | While any restart is unfinished one of them can move. |
| CollectorRuns.UnserialisedGoesStale | api/src/flow/collector.ts:675-683 | Without the chain, two saves end idle, every restart done, on a binding no longer configured. |
| Migrations.ParseFileIsThePattern | api/src/db/migrate.ts:77-83 | Reading a file name finds a version and a name exactly when the pattern matches, and it matches in one way at most. |
| MigrationNames.FileNameIs | api/src/db/migrate.ts:77-83 | A file is a migration exactly when it is V, runs of digits with one dot or underscore between each two, two underscores, a name on one line and .sql; the name shown has spaces for underscores. |
| Migrations.CompareVersions | api/src/db/migrate.ts:134-144 | The loop returns the first difference of the components, missing ones counting as zero. |
| MigrationNames.ComparesNumbers | api/src/db/migrate.ts:134-144 | A version comes before another exactly when at the first number that differs its own is smaller, a missing one counting as zero; they are equal exactly when no number differs. |
| MigrationNames.NumbersAre | api/src/db/migrate.ts:129-132 | The numbers of a version are its runs of digits, in decimal. |
| Migrations.MakeSortKey | api/src/db/migrate.ts:161-165 | The popping loop leaves the components without trailing zeros, one at least, joined by dots. |
| Migrations.KeyAgrees | api/src/db/migrate.ts:146-165 | Two versions share a key exactly when they compare equal. |
| Migrations.VersionsArePreordered | api/src/db/migrate.ts:134-144 | The comparison is total and transitive. |
| Migrations.ParseAll | api/src/db/migrate.ts:74-87 | The loop keeps the valid files in order and groups them by key in listing order. |
| Migrations.OrderMigrationFiles | api/src/db/migrate.ts:73-102 | Ordering gives the colliding groups if there are any, and the stable sort by version otherwise. |
| Migrations.FailsExactlyOnTies | api/src/db/migrate.ts:89-99 | Ordering fails exactly when two valid names carry versions that compare equal. |
| Migrations.OrderedIsIncreasing | api/src/db/migrate.ts:101 | Otherwise the result holds every valid file once, in strictly increasing version order. |
| MigrationNames.OrderedByNumbers | api/src/db/migrate.ts:101 | Of two files in the result the earlier has the smaller version, number by number. |
| Migrations.ListingOrderDoesNotMatter | api/src/db/migrate.ts:69-102 | However the directory is listed, the order is the same, or the collisions name the same versions and files. |
| MigrationRuns.Connection.BaselineFromExistingDatabase | api/src/db/migrate.ts:190-219 | The rows inserted, one at a time, are those of the adopted versions not yet recorded. |
| MigrationRuns.Connection.RunMigrations | api/src/db/migrate.ts:221-272 | Database and verdict of one run that may fail at any statement. |
| MigrationRuns.Connection.ApplyPending | api/src/db/migrate.ts:233-267 | The loop commits pending migrations in order and stops at the first that fails or whose commit is not seen. |
| MigrationRuns.ApplyAdvances | api/src/db/migrate.ts:233-267 | From a recorded prefix, applying commits the next stretch, each migration once and in order, and succeeds only at the end of the list. |
| MigrationRuns.RunsAreResumable | api/src/db/migrate.ts:190-272 | From an empty database, after any runs failing anywhere, the recorded versions are a prefix of the list and exactly that prefix has been executed; a baseline adopts nothing, and one undisturbed run finishes. |
| MigrationRuns.SuccessIsFinal | api/src/db/migrate.ts:221-272 | A successful run leaves everything executed once, and no later run changes anything. |
| Adoption.RunExecutes | api/src/db/migrate.ts:190-272 | On any database an undisturbed run succeeds and executes, in order, exactly the migrations neither recorded nor adopted: where nothing is recorded, what flyway_schema_history lists is adopted, and without that table but with users, everything. |
| Adoption.RunRecords | api/src/db/migrate.ts:190-260 | What it leaves recorded of every version: the row that was there, else name and checksum of its migration, executed or adopted, else a placeholder. |
| MigrationRuns.OrderedAreDistinct | api/src/db/migrate.ts:108-127 | What the ordering returns never holds one version twice, which is what the runner relies on. |
| MigrationRuns.InterruptedAdoption | api/src/db/migrate.ts:190-219 | For any untouched database, by Flyway history of any extent or by its users table, and a baseline cut after any n rows: the next run executes exactly the migrations not among the n rows, or not in the whole history when n is 0; an adopted one is executed again, and the outcome differs from an undisturbed run's, if and only if some row went in and some migration's version had yet to. |
| PacketDecode.DecodedPacket.DecodePacket | api/src/packet/decode.ts:145-227 | The packet filled in step by step is the one the layer functions describe, for every link type. |
| PacketDecode.DecodedPacket.AddTagged | api/src/packet/decode.ts:206-226 | The tag loop takes off at most four tags, keeps the first for display, and decodes what is inside unless the frame ends in a tag. |
| PacketDecode.DecodedPacket.AddNetworkLayer | api/src/packet/decode.ts:230-262 | The fields set are those of the network layer found at the offset and the transport beneath it. |
| PacketDecode.DecodedPacket.AddTransport | api/src/packet/decode.ts:381-426 | TCP or UDP header and payload, cut at the declared end, or nothing when truncated. |
| PacketWire.Ipv4Datagram | api/src/packet/decode.ts:230-426 | The bytes of any IPv4 header and what it carries decode to its own fields, the TCP or UDP header carried, the payload up to the declared length, and the rest as pad; a declared zero stands for all captured. |
| PacketWire.Ipv6Datagram | api/src/packet/decode.ts:230-426 | The same for IPv6. |
| PacketWire.ArpDatagram | api/src/packet/decode.ts:253-379 | The bytes of a request or reply decode to its fields, under ARP and RARP, and what follows 28 bytes is pad. |
| PacketWire.NothingDecoded | api/src/packet/decode.ts:230-379 | Exactly when a network layer is not decoded: another type, too few bytes, another version, too short a declared header, other address lengths. |
| PacketWire.TcpReadsBack | api/src/packet/decode.ts:390-414 | The twenty bytes of any TCP header decode to its ports, numbers, offset, flags, window, checksum and pointer. |
| PacketWire.UdpReadsBack | api/src/packet/decode.ts:416-425 | The eight bytes of any UDP header decode to its ports, length and checksum. |
| PacketWire.CutTransport | api/src/packet/decode.ts:381-426 | A transport header not captured whole is not decoded, and TCP options not captured whole leave no payload. |
| PacketWire.EthernetFrame | api/src/packet/decode.ts:180-227 | An untagged frame shows both its addresses and its type, and the layers of what follows. |
| PacketWire.LlcFrame | api/src/packet/decode.ts:193-298 | A frame with a length shows its LLC header, one or two control bytes, and under SNAP the layers of the type given there. |
| PacketWire.LoopbackFrame | api/src/packet/decode.ts:170-178 | Without a link layer the first four bits of the datagram choose the layer, behind four bytes of address family or none. |
| Vlan.LayersAreLocal | api/src/packet/decode.ts:230-426 | The network layer and all beneath it depend only on the bytes from the offset on. |
| Vlan.UnwrapTags | api/src/packet/decode.ts:206-223 | Unwrapping takes tags off one by one for as long as the guard lasts. |
| Vlan.TagsAreTransparent | api/src/packet/decode.ts:180-267 | For any frame whose own EtherType is neither a length nor a tag, up to four tags leave headers, payload and pad unchanged, truncated frames and zero lengths included; from five on nothing beneath is decoded. |
| Vlan.OutermostTagIsShown | api/src/packet/decode.ts:212-219 | The VLAN header shown is that of the outermost tag. |
| Vlan.TaggedLlcIsOpaque | api/src/packet/decode.ts:193-226 | A frame that carries a length keeps its LLC header and layers under tags if and only if it is too short to have any; otherwise both are lost. |
| Syslog.DecodeOfEncode | api/src/notify/syslog.ts:75 | Decoding the UTF-8 bytes of a line gives the line back (section 3 of RFC 3629). |
| Syslog.EncodeOfDecode | api/src/notify/syslog.ts:81 | Whatever decodes is the encoding of what it decodes to. |
| Syslog.FindCut | api/src/notify/syslog.ts:78-79 | The loop walks back over continuation bytes only. |
| Syslog.CutIsBoundary | api/src/notify/syslog.ts:78-79 | The cut is the last character boundary within the room left, at most three bytes short of it. |
| Syslog.TruncateToBytes | api/src/notify/syslog.ts:74-82 | The line itself when it fits; otherwise the longest whole-character prefix that leaves room for the marker, then the marker. |
| Syslog.MarkerIsTwelve | api/src/notify/syslog.ts:56 | The marker is " [truncated]", twelve bytes. |
| Syslog.FitsExactly | api/src/notify/syslog.ts:74-82 | The result is within the budget exactly when the line was or the budget covers the marker. |
| Syslog.LosesAtMostThree | api/src/notify/syslog.ts:74-82 | A cut line gives up at most three bytes of its budget and could not keep one character more. |

## Left out

- ReloadRuns.HourlyCeiling: one clock that never goes back and one ceiling throughout; a notifier built during a reload's flush forgets the history, which ReloadRuns.HourlyBound counts in and ReloadRuns.HourlyBoundReached shows to break the ceiling.
- GateRuns.ArrivalDecided: one clock, one ceiling and quiet reloads, as above; a notifier built while a reload is flushing remembers no keys either. GateRuns.QueuedApart says nothing of a key crowded out of a full throttle.
- CollectorRuns.SettledOnCurrentSettings: the start at boot and the stop in the socket's error handler are not on the restart chain in the source; they are taken not to overlap a rebind.
- ExportRuns.FlushHandsOver: a digest started by a timer just before `flush` looks may still be under way when it resolves; it has been handed over, not necessarily delivered.
- NetflowTotality.ResultBounded: times and counters are exact integers, so rounding of doubles above 2^53 and `Date` limits are not modelled.
- RoundTrip.MessageRoundTrip: element numbers, lengths and set sizes are those the builder can write without its buffer writes throwing.
- Syslog.TruncateToBytes: lines are sequences of Unicode scalar values; the replacement of a lone surrogate on encoding is not modelled.
- Migrations.OrderMigrationFiles: the text of the collision error is not modelled, only the groups it names.
- MigrationRuns.RunsAreResumable: two processes migrating one database at once are not modelled.
- Indicators.IndicatorSet.Add: lower-casing covers ASCII and the Kelvin sign, since every other letter is refused right after; the order of the per-feed counts in the status is not modelled.
- Text of messages: rendering, catalogues, card and CEF formats, protocol and EtherType names are left out of notifications and packets.
- Sockets, SMTP, webhooks, `fetch`, feed files, capture, Postgres and HTTP: only bind results, send completions and transaction outcomes appear, as steps.
- Whether a channel is configured is fixed for the life of a notifier, as the channels read it from the settings they are built with.
- `FlowScanDetector`, NetFlow v5, sFlow sniffing and version dispatch: fixed layouts or heuristics without a law of their own.
- Alert sinks, detection engine and exporter table of the collector: only their place in a stop and a reset is modelled.
- Hex dumps, `describePacket`, statuses and DTOs, settings resolution, authentication, rate limits and the user interface.
