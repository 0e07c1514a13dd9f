# PCAP-Analyser collectors and record loop, in Dafny

This project models the analysis core of PCAP-Analyser: the loop that reads
every record of a packet capture and hands it to the seven collectors, plus
the collectors themselves.

- **Flow chart.** Keeps the capture timestamps. At output time it sorts them, takes offsets from the first one and files them into 20-second buckets.
- **Traffic table.** Counts, per IP address, the packets sent and received. It ranks the addresses by total traffic.
- **Network map.** Counts the packets on each source-to-destination edge.
- **Map file.** Keeps the distinct addresses in first-seen order.
- **Mail extractor.** Keeps each `To:`/`From:` address found in TCP payloads once, in first-seen order.
- **Image table.** Keeps one row, one URI and one per-type count for each image extension found in an HTTP GET request.
- **Packet summary.** Keeps per-protocol counters, total length and timestamp range for TCP, UDP and IGMP. It also counts unrecognised protocols and computes the rounded mean length.

Each collector whose methods update fields in place is a Dafny `class`. Each
mutating method is proved against a specification function, and where a
collector has an invariant, it is a `Valid()` predicate. The record loop is
`Analyser.ScanRecords`. Its invariant says that every collector holds exactly
what the records scanned so far put into it: `Analyser.Agrees` against
functions of the record sequence (`Timestamps`, `Tally`, `Edges`, `Endpoints`,
`MailEntries`, `ImageRows`, `Samples`, ...). It also says that the error count
is `Analyser.Errors` of those records.

Frame decoding belongs to a foreign library, so it is an input here. A record
carries its timestamp, its frame length and one of three decode outcomes:
- `Malformed`: the link layer could not be parsed.
- `NotIpv4`: the frame carries no IPv4 packet.
- `Ipv4(packet)`: an IPv4 packet. Its TCP segment, when present, carries the payload text and the parsed HTTP request.

The regular expressions the collectors use are modelled exactly by character-class run scanners (module `Text`):
- the file-name pattern `[a-zA-Z0-9_.+-]+.ext`, including the unescaped `.`;
- the mail-command patterns.

Behaviour worth noting:

- **The record loop.** When a collector raises, the loop skips the later collectors for that record and counts one error. No earlier step is rolled back, so a frame whose `add_address` raises keeps its timestamp in the flow chart (`Analyser.TimestampsExactly`).
- **Record accounting.** `processed + errors == records` holds with "processed" meaning "completed all seven steps" (`Analyser.Accounted`).
- **Minimum timestamp.** `min_ts` uses 0 as its "unset" marker, not an absent value. A timestamp of exactly 0 therefore clears the minimum (`Summary.ZeroTimestampRearms`).
- **Mean length.** The mean is Python's `round(total / count)`, which rounds half to even. 0 is used when the counter is 0.
- **Mail extractor.** It rescans the previous TCP payload for a non-TCP packet. It raises an uncaught `AttributeError` when no TCP packet has been seen yet, so such a record counts as an error and never reaches the summary (`Analyser.MailFailsBeforeTcp`).
- **Image URI list.** The list is not deduplicated.
- **Chart buckets.** The bucket label moves on by exactly one bucket per late timestamp. A timestamp far past the boundary is filed under the next label (`Flow.LabelLagExample`).

## Model

| member | source | states |
|---|---|---|
| Text.ContainsIff | parse_modules.py:43 | `'.ext' in uri` holds exactly when the substring occurs at some position |
| Text.RunEnd | parse_modules.py:108 | a greedy `[...]+` run stays in range, consumes only class characters, and stops at the end or at a character outside the class |
| Text.RunEndAt | parse_modules.py:108 | a run of class characters followed by a non-class character is exactly what the greedy run consumes |
| Text.NameFrom | parse_modules.py:45-46 | a file name found is a run of file-name characters, one character other than a newline (the unescaped `.`) and the extension, and it occurs in the URI |
| Text.RunEndPast | parse_modules.py:45-46 | the greedy file-name run reaches past every class character that follows its start |
| Text.NameFromComplete | parse_modules.py:45-46 | if some substring from the scan's start on is a file name, the scan finds a name |
| Text.NameFromNone | parse_modules.py:45-46 | when `re.findall(...)` is empty, no substring of the URI has the file-name shape, so the `[0]` raises only when there is no match |
| Text.NameFoundAfterWordChar | parse_modules.py:45-46 | when `.ext` follows a file-name character, `re.findall(...)[0]` finds a name and does not raise |
| Text.AddressEnd | parse_modules.py:108 | a match ends at a `>` and covers a whole well-formed address |
| Text.Findall | parse_modules.py:107-112 | every address found by the `TO: <`/`FROM: <` scan is well formed |
| Text.AddressEndAt | parse_modules.py:108 | a well-formed address followed by `>` is matched up to exactly that `>` |
| Text.CommandRoundTrip | parse_modules.py:107-121 | scanning `prefix + a + ">"` for a well-formed `a` yields exactly `[a]` |
| Dedup.AddAllNew | parse_modules.py:395-398 | appending each value not yet present keeps the old list as a prefix; membership becomes the union; appended values are new; no duplicates appear |
| Dedup.AddAllNewStep | parse_modules.py:120-121 | offering one more value is one `if x not in list: list.append(x)` |
| Dedup.AddAllNewConcat | parse_modules.py:113-129 | offering `xs` then `ys` is offering `xs + ys` |
| Dedup.AddAllNewPair | parse_modules.py:395-398 | offering `[src, dst]` is offering src, then dst |
| Dedup.AddAllNewPresent | parse_modules.py:120-121 | offering values already listed changes nothing |
| Dedup.AddAllNewIdempotent | parse_modules.py:113-129 | feeding the same values a second time leaves the list unchanged |
| Dedup.AddAllNewFirstSeenOrder | parse_modules.py:395-398 | appended values are ordered by their first occurrence among the offered values |
| Summary.RoundHalfEven | parse_modules.py:192-193 | `round(n / d)` is within half a divisor of `n / d`, and even when exactly half-way |
| Summary.MeanLength | parse_modules.py:192-195 | the mean length is 0 for an empty protocol; otherwise it is the rounded mean, ties to even |
| Summary.MinNotAboveMax | parse_modules.py:161-164 | the least timestamp of a non-empty sequence is not above the greatest |
| Summary.ObserveAllAgrees | parse_modules.py:156-182 | with positive timestamps: the counter is the number of packets, the total length their sum, `min_ts`/`max_ts` the least/greatest timestamp, and `min_ts <= max_ts` |
| Summary.ZeroTimestampRearms | parse_modules.py:163-164 | after timestamps 5, 0, 7 the recorded minimum is 7: a zero timestamp clears it |
| Summary.PacketSummary.constructor | parse_modules.py:144-152 | every dictionary entry and counter starts at 0 |
| Summary.PacketSummary.Update | parse_modules.py:159-164 | the four updates of one protocol's dictionary give the `Observe` step |
| Summary.PacketSummary.SortPacket | parse_modules.py:154-184 | `counter` grows by one; exactly the matching protocol's dictionary is updated, or `error_count` grows; `counter == tcp + udp + igmp + error_count` is kept |
| Summary.PacketSummary.ComputeMeans | parse_modules.py:191-217 | each protocol's `mean_length` becomes its rounded mean (0 when empty); nothing else changes |
| Flow.SortReals | parse_modules.py:241 | `sorted(...)` on timestamps returns an ascending sequence of the same length |
| Flow.SortRealsPermutes | parse_modules.py:241 | sorting keeps exactly the timestamps it is given |
| Flow.SortRealsSorted | parse_modules.py:251 | sorting an ascending sequence changes nothing |
| Flow.Offsets | parse_modules.py:244-250 | each offset is the timestamp minus the first one; for ascending timestamps the offsets start at 0, ascend and are never negative |
| Flow.RelativeTimesShape | parse_modules.py:241-251 | the relative times are as many as the timestamps, start at 0, ascend and are never negative |
| Flow.Histogram | parse_modules.py:257-272 | buckets are empty exactly when there are no times; numbers are consecutive; each bucket holds a time; the last is the current bucket |
| Flow.Filed | parse_modules.py:258-272 | filing a time ends on its bucket, keeps buckets consecutive and non-empty, and adds one to the total |
| Flow.HistogramTotal | parse_modules.py:257-276 | the bucket counts add up to the number of times |
| Flow.HistogramFirst | parse_modules.py:257-262 | the first bucket is the one the first time falls in, so offset 0 lands in the first label |
| Flow.CursorNotAhead | parse_modules.py:263-268 | for ascending non-negative times, the current bucket never starts after the latest time |
| Flow.LabelLagExample | parse_modules.py:263-268 | times 0 and 100 are filed under buckets 0 and 1: one bucket per late time |
| Flow.SumCounts | parse_modules.py:275-278 | the y-values add up to the bucket total |
| Flow.FileExisting | parse_modules.py:259-262 | filing under the last bucket's label appends to that label's list |
| Flow.FileNew | parse_modules.py:269-270 | filing under a new label enters it with a one-element list |
| Flow.FileStep | parse_modules.py:258-272 | filing a time in the dictionary of lists is filing it in the bucket sequence |
| Flow.FileNext | parse_modules.py:257-272 | the next time steps the cursor and keeps the dictionary in step with the buckets |
| Flow.FileUnder | parse_modules.py:259-262 | `mydict[label]` gets the time appended, the label being entered first when new |
| Flow.FileOne | parse_modules.py:258-268 | one loop turn: the bound moves on by 20 exactly when the time reaches it, and the time is filed under the resulting label |
| Flow.FileAll | parse_modules.py:252-272 | the first loop builds a dictionary holding exactly the buckets of the relative times |
| Flow.Series | parse_modules.py:273-278 | each label in insertion order with the length of its list |
| Flow.SeriesOfHeld | parse_modules.py:275-278 | those labels and lengths are the bucket numbers and counts |
| Flow.Bucketize | parse_modules.py:257-278 | the x- and y-values are the bucket numbers and counts of the relative times |
| Flow.FlowChart.constructor | parse_modules.py:231-232 | the chart starts with no timestamps |
| Flow.FlowChart.AddTimestamp | parse_modules.py:234-236 | the timestamp is appended |
| Flow.FlowChart.Output | parse_modules.py:238-280 | timestamps end sorted; no chart without timestamps or with fewer than two buckets; otherwise labels count up from bucket 0 by one and the counts add up to the number of timestamps |
| Traffic.Entries | parse_modules.py:325-328 | one row per address in dictionary order, with its sent and received counts and Total = sent + received; when the key order lists every address once, each address of the dictionary is the address of exactly one row |
| Traffic.RankByTotal | parse_modules.py:325-326 | the ranking is non-increasing in total |
| Traffic.RankByTotalPermutes | parse_modules.py:325-326 | the ranking is a permutation of the rows |
| Traffic.RankByTotalStable | parse_modules.py:325-326 | rows with equal totals keep dictionary order (stable sort with `reverse=True`) |
| Traffic.RankingExample | parse_modules.py:325-328 | A(3,1), B(0,5), C(2,2) rank B, A, C |
| Traffic.BumpCounts | parse_modules.py:312-320 | storing the bumped pair adds one on that side for that address only |
| Traffic.BumpSums | parse_modules.py:312-320 | storing the bumped pair keeps keys and dictionary in step and adds one to that side's sum |
| Traffic.TrafficTable.constructor | parse_modules.py:303-304 | the dictionary starts empty |
| Traffic.TrafficTable.Tally | parse_modules.py:312-320 | a new address gets 1 on the side and 0 on the other; a known one has that side incremented; nothing else changes |
| Traffic.TrafficTable.AddAddress | parse_modules.py:308-320 | src gains one sent, dst one received (both for src == dst); new keys are appended in order; sums of sent and of received each grow by one |
| Traffic.TrafficTable.Ranking | parse_modules.py:325-328 | the printed rows are a permutation of the dictionary's rows, descending by total, and rows with equal totals keep dictionary order (Python's stable sort) |
| Traffic.RankByTotalStableAll | parse_modules.py:325-328 | ranking keeps the input order of the rows with any given total |
| Graph.BumpCounts | parse_modules.py:355-360 | one more packet raises that edge's weight by one and no other, enters the source if new, and keeps every weight at least 1 |
| Graph.NodeGraph.constructor | parse_modules.py:348-349 | the map starts empty |
| Graph.NodeGraph.AddConnection | parse_modules.py:351-360 | the edge `src -> dst` is created at 1 or incremented; no other edge or source changes |
| Graph.NodeGraph.GetDict | parse_modules.py:380-382 | returns the map itself, well formed |
| Kml.KmlFile.constructor | parse_modules.py:387-388 | the address list starts empty |
| Kml.KmlFile.AddAddresses | parse_modules.py:391-398 | src then dst are appended unless already listed; both end up listed; nothing else is added; no duplicates |
| Mail.EntriesWellFormed | parse_modules.py:107-129 | every entry a payload offers is `To:` or `From:` followed by a well-formed address |
| Mail.SingleRecipient | parse_modules.py:107-121 | a payload `TO: <a>` with a well-formed `a` offers exactly `To:a` |
| Mail.EntriesKeepValid | parse_modules.py:113-129 | offering a payload's entries keeps the list duplicate-free and holding only tagged addresses |
| Mail.FindEmails.constructor | parse_modules.py:91-92 | the list starts empty and no payload is held |
| Mail.FindEmails.Offer | parse_modules.py:113-129 | each tagged address found is appended unless already listed, in order |
| Mail.FindEmails.CheckEmails | parse_modules.py:94-131 | a TCP packet replaces the payload, "" when unreadable; other packets rescan the old one, failing when there is none; new entries are appended, `To:` before `From:` |
| Images.Link | parse_modules.py:47 | the link is `http://` and the first 100 characters of the URI |
| Images.ScanFromMatches | parse_modules.py:43-70 | each row matches an occurring extension, with its file name, type and link; the scan succeeds exactly when every occurring extension gave a row; otherwise the failing one had no file name |
| Images.CountsCoverRows | parse_modules.py:49-70 | the gif, jpg and png counts together count every row once |
| Images.TalliedAppend | parse_modules.py:44-49 | adding a row with its URI and counting it under its type keeps counters, URIs and links in step |
| Images.NamedFileListed | parse_modules.py:43-46 | for a URI with `<name>.ext` after a file-name character, the extension is among the matching ones and its file-name lookup cannot raise; when the whole scan succeeds it holds a row of that extension's type (an earlier block that raises, as for `/.gifa.jpg`, ends the scan first) |
| Images.ImageTable.constructor | parse_modules.py:24-30 | the table starts with no rows, no URIs and zero counters |
| Images.ImageTable.CheckExtension | parse_modules.py:43-49 | one `if '.ext' in uri` block adds its row and URI, or fails when no file name is found |
| Images.ImageTable.CheckUri | parse_modules.py:43-70 | the four blocks run in order and the first failure ends the scan, keeping earlier rows |
| Images.ImageTable.CheckPacket | parse_modules.py:32-72 | only TCP GET requests add rows; an unparsed segment or a missing Host header raises; counters equal rows by type |
| Analyser.Accounted | pcap_analyser.py:91-105 | every record either completes all seven steps or is counted as an error, never both |
| Analyser.MailAfterNone | parse_modules.py:98-103 | the mail extractor holds no payload exactly while no TCP packet has been seen |
| Analyser.MailAfterLast | parse_modules.py:98-103 | the mail extractor holds the payload of the last TCP packet |
| Analyser.MailFailsBeforeTcp | pcap_analyser.py:99-104 | a non-TCP IPv4 packet before any TCP packet stops at the mail extractor |
| Analyser.TimestampsExactly | pcap_analyser.py:93-95 | the flow chart holds the timestamp of every record whose frame decoded, and no other |
| Analyser.NotIpv4Keeps | pcap_analyser.py:95-96 | a record without an IPv4 packet leaves every collector after the flow chart unchanged |
| Analyser.TrafficStep | pcap_analyser.py:96 | `add_address` keeps the traffic table equal to the tallies of the records |
| Analyser.GraphStep | pcap_analyser.py:97 | `add_connection` keeps every edge weight equal to the packets sent along it |
| Analyser.KmlStep | pcap_analyser.py:98 | `add_addresses` keeps the map file equal to the first-seen endpoints |
| Analyser.AddressSteps | pcap_analyser.py:96-98 | the three address collectors move together to one more record |
| Analyser.EmailsStep | pcap_analyser.py:99 | `check_emails` keeps the extractor in step and fails exactly when the record's stage is the mail failure |
| Analyser.ImagesStep | pcap_analyser.py:100 | `check_packet` keeps the table in step and fails exactly when the record's stage is the image failure |
| Analyser.SummaryStep | pcap_analyser.py:101 | `sort_packet` adds the completed record's sample to its protocol |
| Analyser.MailThenImages | pcap_analyser.py:99-100 | the image table runs only when the mail extractor did not raise |
| Analyser.ContentSteps | pcap_analyser.py:99-104 | mail, images and summary run up to the first that raises, and the stage returned is the record's |
| Analyser.AddressOnward | pcap_analyser.py:96-104 | the six collectors after the flow chart, for a decoded frame |
| Analyser.ProcessRecord | pcap_analyser.py:92-105 | one record runs through the collectors in order up to the first raise; all collectors agree with one more record |
| Analyser.NewCollectors | pcap_analyser.py:80-86 | the seven fresh collectors agree with no records |
| Analyser.ScanRecord | pcap_analyser.py:91-105 | one loop turn: the collectors agree with one more record and the error count is that of the records so far |
| Analyser.ScanRecords | pcap_analyser.py:88-105 | after the loop every collector holds exactly what the records put into it and `error_count` counts the records that raised |
| Analyser.RunProgram | pcap_analyser.py:70-105 | an unopenable capture touches no collector; otherwise the collectors and error count are those of the whole record sequence, and the summary's packet counter plus the error count is the number of records |

## Left out

- The tkinter window, `hold()`, all printing, the PrettyTable, matplotlib and networkx rendering: user interface and foreign libraries.
- Frame decoding (Ethernet, IPv4, TCP, HTTP request parsing) and `socket.inet_ntoa`: foreign code. Their outcome is an input (`Packets.Record`).
- `core_modules.py` (directory creation, geolocation database download, JSON saving) and `setup.py`: file system, network and process launch. A failure creating the directory is folded into `Analyser.Capture.Unopenable`, since the same outer handler reports it.
- `KML_File.output`: the geolocation lookup and the KML file.
- The output phase after the loop (`pcap_analyser.py:107-121`). A failure there is caught by the same outer handler, but only after the scan; `Analyser.RunProgram` ends with the scan.
- A capture that turns unreadable part-way through, which ends the loop inside the outer handler. A capture is either unopenable or a complete sequence of records.
- Flow.FlowChart.Output: does not compute the threshold `mean + 2 * stdev`, which is floating point with a square root. Only its failure with fewer than two buckets is modelled.
- Flow.Offsets: the wall-clock arithmetic is left out: `datetime` conversion, the day-wrapping `.seconds`, the float built from `str(seconds) + '.' + str(microseconds)`, and the `strftime` labels. Offsets are exact differences, and labels are bucket numbers.
- Summary.MeanLength: exact rational division before rounding, not binary floating point. Timestamps are exact reals.
- Text.Lower: lower-cases ASCII letters only, not all of Unicode.
- Traffic.Entries: the dictionary order is modelled as insertion order. The network map's inner dictionaries are maps without an order, so the order of rows in the connections table is not modelled.
- The scratch attributes the collectors assign to themselves (`self.src`, `self.tcp`, `self.emails`, ...) are not modelled. They only carry values between statements.
