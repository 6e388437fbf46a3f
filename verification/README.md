# A verified model of the SIP proxy

The proxy forwards SIP messages (RFC 3261) between peers and pools of backends, keeps every session on the
backend that first took it, and shares those bindings between proxy instances through Redis. This project
models its six hard parts and proves what each of them promises.

| files | part |
|---|---|
| `Text`, `KeyValues`, `SipUri`, `NameAddrs`, `Routes`, `Vias` | the text layer: Go's string and number functions, and the parsers and printers of addresses, Route, Record-Route, Via, From and To |
| `HeaderViews`, `Messages` | header names and kinds, the header list as a value with its flattened lists, and the message object whose header texts are replaced in place by parsed objects |
| `Framing`, `Wire` | messages as bytes on a stream, and what the next proxy reads of a message that was parsed in part, edited and printed |
| `MessagePath`, `Identity`, `TcpReturn` | what a proxy does to a request and to its response, over chains of proxies; session, dialog and transaction identities; the way back over TCP |
| `Sessions`, `Replication`, `Stickiness` | expiring session stores against a plain history, convergence over Redis, stickiness over whole runs |
| `RoundRobin`, `Resolver` | the backend pool, and the address deltas that feed it |
| `ClientTransports` | the cache of client transports, whose entries may be one object |
| `PreConfigRoutes` | wildcard routes compiled to regular expressions |

Each part has the same shape: functions on values say what a text, a list or a run means; classes and methods
follow the Go code, loop by loop and field by field, and are proved equal to those functions; lemmas prove what
the source promises about the functions. A null or `None` result stands for an error return.

Conventions: a `char` is one byte of a Go string. A *view* is the header list as a value. *Flattened* means all
entries of one kind in order, however they are spread over header lines. `Filled` and `Defaulted` write out a
port that was left to its default, as the Via printer does.

## Where the code falls short of its promise

Each of these comes with an exact condition, in both directions; most also name an input that fails.

- A SIP URI reads back from its own print if and only if only `lr` has an empty value and nothing that needs a
  user (a password, an `@` in the host) stands without one: `SipUris.UriRoundTrip`, with `EmptyValueIsLost` as
  the witness `sip:h;a=;…`.
- A received From or To value comes back from its own print if and only if its address is stable, no parameter
  prints as nothing (as the item `=` does) and, without brackets, parameters do not run into URI headers or an
  absolute URI: `Parties.ReceivedPartyReturns`. The print of an absolute URI with parameters cannot even be read:
  `Parties.BareAbsoluteIsLost`.
- A received Record-Route value comes back if and only if every address is stable, no parameter prints as nothing
  and no parameter list ends in a blank: `Routes.ReceivedRecordRouteReturns`, with `EmptyItemIsLost` (`<sip:h>;=`) and
  `EndingBlankIsLost` (`<sip:h>;a =`). A Route value loses all parameters, since no `;` is written:
  `Routes.ReceivedRouteReturns`, `RouteParamIsLost`.
- A printed message is framed correctly if and only if no other spelling of Content-Length in front of the
  printer's own contradicts the body: `Framing.MessageRoundTrip`. A message with `Content-Length` and then `l: 0` is
  received whole, and its print leaves the body on the stream: `TwoLengthsMisframe`.
- A response loses one Via too many exactly when its request was forwarded without one:
  `MessagePath.RestoredIffPushed`.
- Both directions of a dialog share an id when the addresses differ or the tags agree, whatever the tags. For
  addresses with a `:` and tags without one that is an equivalence (`Identity.OneDialogExactly`), so a party that
  talks to its own address under two tags has two ids; tags that spell the address can collide (`TagsMayCollide`).
- One session id names one Call-ID and one pair of addresses, unless one pair runs over into the other at a `-`:
  `Identity.OneCallExactly`, with `HyphensCollide` as the witness. Without `-` in the addresses two messages have one
  session if and only if they are of one conversation: `Identity.OneSessionExactly`.
- `Expires` above 9223372036 seconds wraps around, and a session stays bound for the timeout if and only if the
  wrapped value still reaches it: `SessionHistory.LifetimeIsMaximum`, `Stickiness.SendBindsExactly`, with
  `Stickiness.OverflowUnbinds` as the witness.
- A published line is understood if and only if no name in it holds a blank: `SessionWire.AddLine`,
  `SessionWire.DeleteLine`.
- After all copies of the log are delivered, a proxy answers what a plain replay leaves if and only if that is
  nothing, or it forgot the session locally at no moment when every copy had already delivered the session's
  last line: `Replication.ConvergesExactly`, with `LateLocalDeleteDiverges` as the witness.
- A waiting transaction loses its TCP connection if and only if another one is accepted at its address while it
  shares its object with the base entry, that is if it was first at its address and the base entry has not been
  removed since: `TransportCache.LeadsExactly`, `ResponseFindsItsConnection`, with `ConnectionIsTaken` as the witness.
- A TCP response is looked up under the key of its request if and only if the Via says TCP and the host does not
  start with a bracket: `TcpReturn.KeysAgree`. At the host `[` the proxy slices out of range and panics:
  `TcpReturn.LoneBracketCrashes`, for the received `Via: SIP/2.0/TCP [`.
- With a bracket in a host two cache keys can have one text, so that one deletes the other:
  `TransportCache.BracketsCollide`. Without brackets that cannot happen: `FullAddrInjective`.
- A pool holds exactly the last address set of a host if and only if it keeps no endpoint that it held for another
  reason and the host never resolved to: `Resolver.Converged`.

## Model

| member | source | states |
|---|---|---|
| `Text.SplitJoin` | via.go:150-161 | splitting at a separator undoes joining with it, for parts that lack it |
| `Text.FieldsJoin` | message.go:154-178 | white-space fields of blank-joined tokens are those tokens |
| `Text.FieldsSpaced` | via.go:187-193 | a text is read field by field, whatever white space lies in front, between and behind |
| `Text.SpaceCharacters` | message.go:129-131 | the six white-space characters of ASCII |
| `Text.TrimSpaceStrips` | message.go:210-216 | exactly the white space around a text goes, however much there is |
| `Text.ParseItoa` | sip_uri.go:67-76 | a printed integer reads back as itself, or as the clamped value with a range error |
| `Text.SignedNumber` | sip_uri.go:67-76 | digits with or without a sign are that number, in range or clamped |
| `Text.NoNumber` | sip_uri.go:67-76 | no other text is a number |
| `Text.LeadingZero` | sip_uri.go:67-76 | leading zeros do not matter |
| `Text.LessTrichotomy` | message.go:868-876 | the string order is total and strict |
| `Text.LessExactly` | message.go:868-876 | a string is smaller exactly when the two agree up to a position where it ends or has the smaller character |
| `Text.CaseFolds` | message.go:56-61 | the two alphabets fold into each other and nothing else changes |
| `Text.JoinHostPortInjective` | backend.go:429-463 | with one port, different hosts give different addresses |
| `KeyValues.PairRoundTrip` | key_value.go:14-23 | a printed parameter reads back as its name and value |
| `KeyValues.GenericParamsRoundTrip` | generic_param.go:8-18 | a list of printed parameters reads back as the list exactly when none prints as nothing |
| `KeyValues.ParsedParamsAreGeneric` | generic_param.go:8-18 | every parsed parameter list is in the domain of the round trip |
| `KeyValues.PrintNoLonger` | key_value.go:14-23 | a printed list is never longer than the text it was read from |
| `KeyValues.PrintParamsSplits` | from_spec.go:79-91 | a printed `;`-list splits back into exactly its items |
| `KeyValues.LookupStore` | via.go:65-93 | storing a parameter changes the answer for that name only |
| `KeyValues.StoreKeepsNames` | via.go:65-73 | storing keeps the names and their order; only a new name joins, at the end |
| `KeyValues.LookupIsFirst` | via.go:75-83 | a lookup answers the first pair of the name, and nothing exactly when there is none |
| `KeyValues.CollectParams` | from_spec.go:56-66 | the loop reads all items, and fails exactly when one is empty |
| `KeyValues.AppendParams` | to.go:70-83 | the printing loop writes every parameter after a `;`, in order |
| `KeyValues.WritePair` | key_value.go:14-23 | an empty value is printed without `=` |
| `KeyValues.StoreInPlace` | via.go:65-73 | the loop changes the first pair of the name, else appends |
| `SipUris.SIPURI.Parse` | sip_uri.go:22-55 | a fresh object with every field the text means, or an error exactly for another scheme |
| `SipUris.SIPURI.Fill` | sip_uri.go:33-54 | query, parameters, user and host are cut off in the source's order |
| `SipUris.SIPURI.FillAddress` | sip_uri.go:46-54 | everything before the first `@` is user information, the rest host and port |
| `SipUris.SIPURI.ParseUserInfo` | sip_uri.go:57-65 | the first `:` separates user and password |
| `SipUris.SIPURI.ParseHostPort` | sip_uri.go:67-76 | the first `:` separates host and port; a bad port counts as absent |
| `SipUris.SIPURI.ParseUriParameters` | sip_uri.go:78-94 | appends the items up to the first malformed one, and fails exactly when there is one |
| `SipUris.SIPURI.ParseUriHeader` | sip_uri.go:96-108 | appends the headers up to the first without `=`, and fails exactly when there is one |
| `SipUris.SIPURI.SetParameter` | sip_uri.go:123-131 | changes or adds that parameter and no other field |
| `SipUris.SIPURI.Write` | sip_uri.go:172-225 | the buffer holds the printed form of all fields, with or without parameters and headers |
| `SipUris.UriRoundTrip` | sip_uri.go:22-108 | parsing the printed form gives back every field if and only if the URI is stable |
| `SipUris.ParsedIsPrintable` | sip_uri.go:22-55 | every URI that was parsed is in the domain of the round trip |
| `SipUris.ReprintLacks` | sip_uri.go:172-225 | printing what was read brings in no character of its own but separators and digits |
| `SipUris.SemicolonReprint` | sip_uri.go:22-225 | a text with a `;` at most at its end has no parameters, and neither has its print any `;` before its end |
| `SipUris.ReprintIsIdentity` | sip_uri.go:162-225 | print after parse loses nothing whenever the first reading is stable |
| `SipUris.EmptyValueIsLost` | sip_uri.go:78-94 | for every text that starts `sip:h;a=;` the printed form does not read back |
| `SipUris.UriReads` | sip_uri.go:22-76 | any SIP URI is read part by part: query, parameters, user information, password and port, each cut off at its first delimiter and each possibly missing |
| `SipUris.ParametersStop` | sip_uri.go:78-94 | the first malformed parameter ends the list, whatever follows |
| `SipUris.HeadersStop` | sip_uri.go:96-108 | the first malformed header ends the list, whatever follows |
| `SipUris.UriDefaults` | sip_uri.go:133-151 | a written port counts; else 5061 exactly for transport tls; the transport is udp when none is named |
| `NameAddrs.AddrSpecRoundTrip` | addr_spec.go:17-32 | an address reads back always if absolute, exactly when stable if a SIP URI |
| `NameAddrs.NameAddrEnds` | name_addr.go:16-44 | a printed name-addr ends at its `>`, whatever follows |
| `NameAddrs.NameAddrRoundTrip` | name_addr.go:16-44 | display name and address read back exactly when the address is stable |
| `NameAddrs.ParsedNameIsPrintable` | name_addr.go:16-29 | every parsed name-addr is in the domain of the round trip |
| `Parties.NamedRoundTrip` | from_spec.go:16-91 | a bracketed From or To with parameters reads back exactly when its address is stable and no parameter prints as nothing |
| `Parties.BareSipRoundTrip` | to.go:16-83 | an unbracketed SIP URI, as the parser reads it, comes back with the parameters behind it exactly when it is stable, none of them prints as nothing, and it has no URI headers or no parameters follow |
| `Parties.ReceivedPartyReturns` | from_spec.go:16-91 | whatever From or To value was received, its print is read as the same value exactly when the value is one of those that return |
| `Parties.UnpairedBracket` | from_spec.go:21-28 | a `<` without a `>` behind it is an error |
| `Parties.BareAbsoluteRoundTrip` | from_spec.go:42-55 | an unbracketed absolute URI reads back exactly when no parameters follow it |
| `Parties.BareAbsoluteIsLost` | from_spec.go:42-55 | for every such value that was received with parameters, the print is unreadable |
| `Parties.FromSpec.Parse` | from_spec.go:16-68 | a fresh object that means the text, or an error exactly when the text has no meaning |
| `Parties.FromSpec.String` | from_spec.go:79-91 | prints address and all parameters |
| `Parties.FromSpec.SetTag` | from_spec.go:106-116 | the tag is the new one; an old tag is changed in place, a missing one put first; the address stays |
| `Parties.To.Parse` | to.go:16-68 | as for From |
| `Parties.To.String` | to.go:70-83 | prints address and all parameters |
| `Parties.To.AddParam` | to.go:98-106 | changes or adds that parameter, nothing else |
| `Routes.ParseOneEntry` | route.go:39-66 | reads name-addr and parameters, with the error cases of the source |
| `Routes.CollectEntries` | route.go:27-37 | reads all entries of a comma-separated value, or fails when one fails |
| `Routes.Route.Parse` | route.go:27-37 | a fresh non-empty list that the text means, or an error |
| `Routes.Route.PopRouteParam` | route.go:74-81 | takes exactly the first entry off; an empty list is an error and stays |
| `Routes.Route.String` | route.go:86-109 | prints all entries in order |
| `Routes.Route.WriteEntry` | route.go:111-124 | prints an entry, its parameters without `;` |
| `Routes.RouteEntryRoundTrip` | route.go:111-124 | an entry reads back exactly when its address is stable and it has no parameters |
| `Routes.RouteRoundTrip` | route.go:27-124 | a Route value reads back exactly when that holds of all its entries |
| `Routes.RouteParamIsLost` | route.go:111-124 | the received value `<sip:h>` with a parameter is read, but not again after printing |
| `Routes.RecEntryRoundTrip` | record_route.go:40-69 | a Record-Route entry reads back exactly when its address is stable, no parameter prints as nothing and the list does not end in a blank |
| `Routes.RecordRouteRoundTrip` | record_route.go:23-127 | a Record-Route value reads back exactly when that holds of all its entries |
| `Routes.EntryParamsRoundTrip` | record_route.go:54-67 | the parameters of an entry come back exactly when none prints as nothing and the list does not end in a blank |
| `Routes.ParsedListIsPrintable` | record_route.go:23-38 | every parsed list is non-empty and in the domain of the round trips |
| `Routes.ReceivedRecordRouteReturns` | record_route.go:23-127 | whatever Record-Route value was received, its print is read as the same value exactly under that condition |
| `Routes.ReceivedRouteReturns` | route.go:27-124 | whatever Route value was received, exactly when all addresses are stable and there are no parameters |
| `Routes.EmptyItemIsLost` | record_route.go:40-69 | the received `<sip:h>;=` is printed as an entry that cannot be read |
| `Routes.EndingBlankIsLost` | record_route.go:40-69 | the received `<sip:h>;a =` comes back with another key |
| `Routes.EntryParamsSpaced` | route.go:49-65 | white space around the parameters of an entry does not matter |
| `Routes.JunkBehindBracket` | route.go:39-56 | other text behind the `>` is an error, and so is an entry without `>` |
| `Routes.ListRefused` | route.go:27-37 | a list is refused exactly when one of its entries is |
| `Routes.OwnRecordRouteText` | record_route.go:131-140 | the proxy's own entry reads `<sip:address:port;lr>` |
| `Routes.RecordRoute.Parse` | record_route.go:23-38 | a fresh non-empty list that the text means, or an error |
| `Routes.RecordRoute.AddRecRoute` | record_route.go:82-84 | the entry joins at the end |
| `Routes.RecordRoute.String` | record_route.go:86-127 | prints all entries, each parameter after a `;` |
| `Vias.ViaParam.Parse` | via.go:187-229 | a fresh entry that the text means, or an error in exactly the source's cases |
| `Vias.ViaParam.SetParam` | via.go:65-73 | changes or adds that parameter, nothing else |
| `Vias.ViaParam.RecordPeer` | message.go:652-655 | the peer's address is recorded, its port exactly when `rport` is there |
| `Vias.ViaParam.String` | via.go:140-148 | prints the entry with its port written out |
| `Vias.Via.Parse` | via.go:150-161 | a fresh non-empty list of distinct entry objects that the text means, or an error |
| `Vias.Via.AddViaParam` | via.go:30-32 | the entry joins at the end and stays distinct |
| `Vias.Via.PopViaParam` | via.go:34-41 | takes exactly the first entry off; an empty list is an error and stays |
| `Vias.Via.RecordPeer` | message.go:643-658 | only the first entry of the list changes |
| `Vias.Via.String` | via.go:54-63 | prints all entries in order |
| `Vias.ViaParamRoundTrip` | via.go:140-148 | a printed entry reads back with its default port filled in |
| `Vias.ViaRoundTrip` | via.go:54-229 | a printed Via list reads back with the default ports filled in |
| `Vias.PrintedOnceIsFixed` | via.go:54-63 | print after parse after print is the identity |
| `Vias.ParsedViaIsPrintable` | via.go:150-161 | every list that was parsed is non-empty and in the domain of the round trip |
| `Vias.DefaultedIsSame` | via.go:101-114 | filling in the port changes neither print, sent-by, branch, rport nor the response's hop |
| `Vias.RecordedHop` | proxy.go:576-599 | after recording, a response goes to the peer, to its port if it asked for that; nothing else of the entry changes |
| `Vias.EntryReads` | via.go:187-229 | any entry is read field by field, with any white space; a port that is no number is an error |
| `Vias.EntryRefused` | via.go:187-205 | an entry whose head is not two fields, whose protocol is not three parts or whose sent-by has two colons is an error |
| `Vias.HopOfText` | proxy.go:576-599 | without `received` a response goes to the host in the text of the entry, and to the port written there or the default of its transport |
| `Vias.HopOfReceived` | proxy.go:585-592 | with `received` it goes there, and to a numeric `rport`, else the sent-by port |
| `Vias.OnlyAbsentPortsChange` | via.go:101-114 | a written port is printed as it is; only an absent one is filled in |
| `Vias.OwnViaText` | via.go:174-185 | the proxy's own entry reads `SIP/2.0/UDP host:port;branch=…` |
| `HeaderNames.SameHeaderIffCanon` | message.go:41-83 | case folding with the two-way table is one equivalence: equality of long lower-case names |
| `HeaderNames.FullHasLetter` | message.go:49-54 | every long name leads back to its letter |
| `HeaderNames.LetterHasFull` | message.go:49-54 | every letter leads back to its long name |
| `HeaderViews.KindsByName` | message.go:66-83 | Via, From, To, Call-ID and Content-Length are known by their long name or v, f, t, i and l, in any case, and by no other |
| `HeaderViews.KindsByLongName` | message.go:66-83 | Route, Record-Route, CSeq, Expires and Max-Forwards are known by their long name only |
| `HeaderViews.LookupByKind` | message.go:237-263 | looking a header up by its usual name finds exactly the spellings of its kind |
| `HeaderViews.PopTakesFirst` | message.go:361-373 | a pop removes exactly the first flattened entry over any grouping, and no other header changes |
| `HeaderViews.PushViaAddsFirst` | message.go:385-392 | AddVia puts exactly one entry in front of the flattened list, and no other header changes |
| `HeaderViews.PushRecordRouteAddsFirst` | message.go:507-514 | AddRecordRoute puts exactly one entry in front of the flattened list, and no other header changes |
| `HeaderViews.RecordRoutePlace` | message.go:486-505 | a Record-Route goes in front of the others, else in front of all From and Max-Forwards headers and directly in front of one, else to the very front |
| `HeaderViews.ViaPlace` | message.go:375-382 | a Via goes directly in front of the first Via header, or to the very front |
| `HeaderViews.PopUndoesPush` | message.go:385-452 | popping after pushing gives back the very same header list |
| `HeaderViews.SetReceivedRecordsTop` | message.go:643-658 | only the first flattened Via entry changes |
| `HeaderViews.InsertInFront` | message.go:375-392 | a line put before the first of its kind contributes the first entries and moves nothing else |
| `HeaderViews.ReplaceFirst` | message.go:438-452 | changing the first line of a kind touches only that line's entries |
| `HeaderViews.FlatOfOthers` | message.go:438-452 | lists with the same other headers agree on every other flattened list |
| `HeaderViews.HostsStep` | message.go:454-484 | one more Via line contributes exactly its entries' hosts |
| `Messages.CSeq.Read` | cseq.go:17-27 | number and method the text means, or an error |
| `HeaderViews.CSeqReads` | cseq.go:17-27 | a CSeq value is a number and a method, with any white space around them; one field or three are an error |
| `Messages.Header.Intern` | message.go:306-316 | the text is replaced by an object of the same content |
| `Messages.Message.AddHeader` | message.go:233-235 | one text header more at the end, all others the same objects |
| `Messages.Message.GetHeaderInt` | message.go:275-284 | the number of the first header of the kind while it is a text |
| `Messages.Message.GetExpires` | message.go:935-941 | the number in the first Expires header, or the default |
| `Messages.Message.IsFinalResponse` | message.go:634-641 | exactly the responses of status 200 to 699 |
| `Messages.Message.FindHeaderPos` | message.go:255-263 | the position of the first header of the kind in any spelling |
| `Messages.Message.InternAt` | message.go:395-414 | replacing one text by its object leaves the whole view unchanged |
| `Messages.Message.GetVia` | message.go:395-414 | the object of the first Via line; view, header order and all parsed objects stay, so a second call returns it again |
| `Messages.Message.GetRoute` | message.go:341-358 | the same for Route |
| `Messages.Message.GetRecordRoute` | message.go:516-533 | the same for Record-Route |
| `Messages.Message.GetFrom` | message.go:300-317 | the same for From |
| `Messages.Message.GetTo` | message.go:321-338 | the same for To |
| `Messages.Message.GetCSeq` | message.go:416-435 | the same for CSeq |
| `Messages.Message.Read` | message.go:300-533 | the getter of any kind: an object exactly when the first line of the kind can be read, and only lazy parsing |
| `Messages.Message.ReadAll` | message.go:300-533 | any sequence of getter calls leaves all a reader sees unchanged, each succeeds as the original message decides, and calls of one getter return one object |
| `Messages.Message.ViaParamHosts` | message.go:454-484 | visits exactly the flattened Via entries in order, and changes nothing a reader sees |
| `Messages.Message.RemoveHeader` | message.go:288-296 | exactly the first header of the kind is gone |
| `Messages.Message.PopVia` | message.go:438-452 | the view loses its first flattened Via entry, with its line when it was the only one, and that entry is returned in a Via of its own |
| `Messages.Message.PopRoute` | message.go:361-373 | the same for Route |
| `Messages.Message.InsertHeader` | message.go:385-392 | one header line more at the position |
| `Messages.Message.AddVia` | message.go:385-392 | the view is the one with the entry pushed in front |
| `Messages.Message.FindRecordRoutePos` | message.go:486-505 | before the Record-Route headers, else before the earlier of From and Max-Forwards, else first |
| `Messages.Message.AddRecordRoute` | message.go:507-514 | the view is the one with the entry pushed in front |
| `Messages.Message.SetReceived` | message.go:643-658 | only the top Via entry changes; the header objects stay |
| `Messages.TidyMessage` | message.go:361-452 | no operation leaves an empty list behind or an object under a foreign name |
| `Framing.MessageRoundTrip` | message.go:180-231 | a printed message is read back in normal form, consuming exactly its bytes, if and only if its length lines are honest |
| `Framing.ParsedIsWellFormed` | message.go:180-231 | every message that is received is in the domain of the round trip, exactly but for requests whose URI is not stable |
| `Framing.TwoLengthsMisframe` | message.go:584-597 | for every start line and body, a message with a true `Content-Length` and then `l: 0` is received whole, and its print is read without body, which stays on the stream |
| `Framing.OkStart` | message.go:167-178 | `SIP/2.0 200 OK` is such a start line |
| `Framing.OneSpellingIsHonest` | message.go:584-597 | without another spelling of Content-Length they always are |
| `Framing.NormalizedPrintsSame` | message.go:554-597 | the normal form prints the same bytes and is its own normal form |
| `Framing.StreamFraming` | transport.go:815-840 | any number of messages written back to back is read in order, each exactly, with any bodies and any rest |
| `Framing.StreamReprints` | message.go:554-597 | what was read prints to the bytes it was read from |
| `Framing.FieldLineReads` | message.go:210-216 | a header line is read as its name and value, however much white space there is around the value, also none |
| `Framing.HeaderLineReads` | message.go:184-218 | the same within a header block |
| `Framing.NoColonRefused` | message.go:210-214 | a line without colon makes the message unreadable, and so does a header block without end |
| `Framing.BareLineEnds` | message.go:112-127 | a line may end in a line feed alone |
| `Framing.FirstLengthCounts` | message.go:219-222 | the first length header in any spelling counts; without one there is no length |
| `Framing.LengthFrames` | message.go:180-231 | a length in any spelling and spacing takes exactly that many bytes as body, or the message is refused when there are fewer |
| `Framing.NoLengthRefused` | message.go:219-222 | a message without length is refused |
| `Framing.LeadingSpaceSkipped` | message.go:133-148 | white space in front of a message is skipped |
| `Framing.StartRefused` | message.go:154-165 | a request line has exactly three fields |
| `Framing.StatusRefused` | message.go:167-178 | a status line has at least three fields, the second a number |
| `MessageIO.Reader.ReadLine` | message.go:112-127 | one line without its end, and the rest of the stream |
| `MessageIO.Reader.SkipWhiteSpace` | message.go:133-148 | exactly the leading white space is consumed |
| `MessageIO.Reader.ReadBody` | message.go:226-230 | exactly the announced bytes, or an error when there are fewer |
| `MessageIO.ParseFirstLine` | message.go:180-208 | the start line, with the error cases of the source |
| `MessageIO.ParseHeaderLine` | message.go:184-218 | one header line, the end of the headers, or an error |
| `MessageIO.ParseHeaders` | message.go:184-218 | all header lines in order, as texts |
| `MessageIO.ParseMessage` | message.go:180-231 | a fresh message that the front of the stream means, consuming exactly it; null exactly when there is none |
| `MessageIO.WriteValue` | message.go:591-591 | a header prints as its text or by its object's printer |
| `MessageIO.EncodeHeader` | message.go:584-597 | prints all headers but those spelled Content-Length |
| `MessageIO.Write` | message.go:554-563 | the bytes of the message, length line last |
| `Wire.ValueTravels` | message.go:584-597 | a printed header value is read back with the same content up to default ports |
| `Wire.OwnEntriesTravel` | proxy.go:393-408 | the Via and Record-Route entries a proxy makes for itself do so |
| `Wire.PrintedTravels` | message.go:554-597 | so does the whole header list, partly parsed or not |
| `Wire.NextProxyReads` | transport.go:815-840 | the next proxy takes exactly the printed bytes from the stream and reads the same start line, headers and body |
| `Wire.UnparsedView` | message.go:180-231 | a message just read means exactly what its lines say |
| `Wire.SameDecisions` | proxy.go:551-599 | sender and reader agree on every flattened list, the route, the response's hop, session and transaction |
| `Wire.DeliveredVias` | transport.go:815-840 | what a receiver reads of the printed bytes has the sender's flattened Via list, up to default ports |
| `Wire.RequestRunOverBytes` | proxy.go:357-391 | proxies that print, send and parse their messages make a request run |
| `Wire.ResponseRunOverBytes` | proxy.go:380-389 | and a response run on the way back |
| `Wire.ReversePathOverBytes` | proxy.go:357-399 | so the reverse path holds over bytes, from parser to printer at every proxy |
| `MessagePath.TopsAreHeads` | message.go:341-414 | what the getters see first is the head of the flattened list |
| `MessagePath.RouteConsumption` | proxy.go:283-307 | at most two entries leave the front of the Route list: the first only if it names this listener, the second only if it is not kept and then it is the chosen hop |
| `MessagePath.OwnRouteExactly` | proxy.go:283-307 | the topmost Route goes exactly when its port, written or default, is the listener's and its host the listener's or an alias of it |
| `MessagePath.OwnEntryComesBack` | proxy.go:300-307 | the Record-Route entry a listener wrote is removed when it comes back there, and by no listener at another port or unknown address |
| `MessagePath.AbsoluteRouteStays` | proxy.go:292-297 | an absolute URI names no listener |
| `MessagePath.NextHopExactly` | proxy.go:551-574 | the chosen hop is the host of the first entry left, with the port and transport its URI names, or the defaults |
| `MessagePath.NoNextHop` | proxy.go:551-574 | there is none without a Route or with an absolute URI in it |
| `MessagePath.ForwardedVias` | proxy.go:357-408 | a forwarded request carries the proxy's entry in front of the list it arrived with, or that list if no transport was known |
| `MessagePath.ForwardedRecordRoutes` | proxy.go:401-408 | the proxy's Record-Route entry is in front exactly when its transport is known and there was such a header or it insists |
| `MessagePath.ArrivedHop` | proxy.go:247-249 | the arrived request addresses its response to the peer where it was recorded, else to what the topmost entry says of itself |
| `MessagePath.UnrecordedHop` | proxy.go:576-599 | where no peer is recorded, a response goes where the entry itself says |
| `MessagePath.ResponseGoesToText` | proxy.go:576-599 | a response whose topmost Via is a text without `received` leaves for the host and port in that text |
| `MessagePath.SameHop` | proxy.go:576-599 | lists equal up to default ports give the same hop and branch |
| `MessagePath.ReversePath` | proxy.go:357-399 | over any number of proxies and any regrouping, each sends the response with the Via list its request had on arrival, to the hop the request came from |
| `MessagePath.RunExists` | proxy.go:357-399 | every request has such a run through every chain whose transports are known |
| `MessagePath.ThereAndBack` | proxy.go:357-399 | every request through every chain and back ends with the Via list it arrived with, at the hop it came from |
| `MessagePath.RestoredIffPushed` | proxy.go:365-389 | a proxy restores the Via list if and only if it knew the transport when it forwarded |
| `MessagePath.PathProxy.TryRemoveTopRoute` | proxy.go:283-307 | the top entry goes exactly when it names the listener |
| `MessagePath.PathProxy.GetNextRequestHopByRoute` | proxy.go:551-574 | the hop of the top entry, which goes unless it is to be kept |
| `MessagePath.PathProxy.AddOwnVia` | proxy.go:393-399 | one own entry in front |
| `MessagePath.PathProxy.AddOwnRecordRoute` | proxy.go:401-408 | one own entry exactly when there is a Record-Route already or it is configured |
| `MessagePath.PathProxy.SignRequest` | proxy.go:365-373 | both, only when the transport is known |
| `MessagePath.PathProxy.ForwardRequest` | proxy.go:236-391 | the whole way of a request through one proxy |
| `MessagePath.ReturnedVias` | proxy.go:283-389 | of a response's Via list exactly the first entry goes, whatever happens to its Route |
| `MessagePath.PathProxy.PrepareResponse` | proxy.go:236-389 | the own entry goes and the one below names the hop |
| `Identity.SessionIdSwaps` | message.go:836-877 | From and To may be swapped |
| `Identity.DialogIdSwaps` | message.go:695-747 | the dialog id is the same both ways when the addresses differ or the tags agree, for all tags |
| `Identity.TagIsFirst` | from_spec.go:93-104 | the first tag parameter counts; without one the tag is empty |
| `Identity.OwnAddressTwoIds` | message.go:695-747 | with one address on both sides it is the same exactly when the tags are, if the address has a `:` and the tags do not |
| `Identity.TagsMayCollide` | message.go:695-747 | for every tag and address there is another tag with which the two directions collide |
| `Identity.OneConversationOneSession` | message.go:836-877 | messages of one conversation have one session id, whatever their direction, display names, tags, URI parameters and URI headers |
| `Identity.CallIdDecides` | message.go:836-877 | between the same two addresses, different Call-IDs are different sessions and different dialogs |
| `Identity.OneCallExactly` | message.go:836-877 | with one Call-ID two address pairs are one session exactly when they are the same pair or one runs over into the other at a `-` |
| `Identity.HyphensCollide` | message.go:836-877 | there are SIP addresses that do |
| `Identity.SessionIdExactly` | message.go:836-877 | where no address holds a `-`, the id names the Call-ID and the two addresses |
| `Identity.DialogAddrExactly` | message.go:749-759 | the text of an address names it, up to URI parameters and URI headers |
| `Identity.OneSessionExactly` | message.go:836-877 | two messages have one session exactly when they are of one conversation, for addresses without `-` that come back from their text |
| `Identity.DirectionsShareDialog` | message.go:695-759 | both directions of a dialog have one id when the addresses differ or the tags agree |
| `Identity.OneDialogExactly` | message.go:695-759 | and only then, for addresses with a `:` and tags without |
| `Identity.SipAddressHasColon` | message.go:749-759 | every SIP address has one |
| `Identity.RewritesKeepSession` | proxy.go:357-408 | no sequence of the proxy's own rewrites changes the session |
| `Identity.ResponseTransaction` | message.go:815-834 | the response a proxy passes on names the transaction its request arrived under |
| `Identity.HasTransaction` | message.go:815-834 | every message with a method and a branch has a transaction, but an ACK has none |
| `Identity.TransactionsDiffer` | message.go:815-834 | with one branch, different methods are different transactions, and with one method different branches |
| `Identity.TransactionsExactly` | message.go:815-834 | with methods free of `-` two transactions are one exactly when both method and branch are |
| `Identity.GetClientTransaction` | message.go:815-834 | the transaction of the view; only lazy parsing happens |
| `Identity.GetTopViaBranch` | message.go:760-775 | the branch of the top Via; only lazy parsing happens |
| `Identity.GetCallId` | message.go:679-689 | the text of the first Call-ID header |
| `Identity.GetWho` | message.go:836-860 | Call-ID, From and To, or an error when one is missing; only lazy parsing happens |
| `Identity.GetSessionId` | message.go:836-877 | the session of the view; only lazy parsing happens |
| `Identity.GetDialog` | message.go:695-747 | the dialog of the view; only lazy parsing happens |
| `TcpReturn.KeysAgree` | proxy.go:250-273 | a request is registered under the key of its response if and only if the Via says TCP and the host does not start with a bracket; the proxy crashes exactly at a lone bracket |
| `TcpReturn.TransactionsApart` | proxy.go:250-273 | requests that differ in method or branch are registered under different keys |
| `TcpReturn.AckIsSkipped` | proxy.go:250-273 | no ACK is registered |
| `TcpReturn.LoneBracketCrashes` | proxy.go:250-254 | a message whose top Via is `SIP/2.0/TCP [` is such a request |
| `TcpReturn.BracketsGo` | proxy.go:252-254 | exactly the brackets around a host go |
| `TcpReturn.ResponseReturnsOnItsConnection` | proxy.go:601-647 | end to end, through any other traffic of hosts without brackets: the response coming back through the chain leaves on the connection its request came in on, if and only if nobody was accepted at its address while it shared its object |
| `SessionHistory.AnswerIsLastAdd` | backend.go:607-618 | a session is answered exactly by its last add, not deleted since and not run out |
| `SessionHistory.LifetimeIsMaximum` | backend.go:622-633 | the lifetime is the longer of timeout and Expires if and only if Expires fits a Duration |
| `SessionHistory.LifetimeCoversTimeout` | backend.go:622-633 | the lifetime reaches the timeout if and only if Expires fits a Duration or wraps to at least the timeout |
| `SessionHistory.WrapsOnce` | backend.go:622-633 | the wrapped lifetime is the 64-bit number that differs by a multiple of 2^64 |
| `LocalSessions.LocalSessionBasedBackend.constructor` | backend.go:599-605 | an empty store answers the empty history |
| `LocalSessions.LocalSessionBasedBackend.GetBackend` | backend.go:609-618 | answers what the history says; a binding that has run out is deleted, and no answer changes by that now or later |
| `LocalSessions.LocalSessionBasedBackend.AddBackend` | backend.go:622-633 | the history gains exactly one add, with the lifetime above |
| `LocalSessions.LocalSessionBasedBackend.RemoveSession` | backend.go:637-639 | the history gains exactly one delete |
| `LocalSessions.LocalSessionBasedBackend.CleanExpiredSession` | backend.go:641-658 | when due, exactly the expired bindings go; no answer changes now or later |
| `LocalSessions.StaysSilent` | backend.go:609-618 | an answer that is gone never comes back by waiting |
| `RedisSessions.RedisSessionBackendAddrMgr.GetBackendAddress` | backend.go:538-548 | answers what the history says |
| `RedisSessions.RedisSessionBackendAddrMgr.SetBackendAddress` | backend.go:552-565 | the history gains exactly one add |
| `RedisSessions.RedisSessionBackendAddrMgr.RemoveBackend` | backend.go:567-578 | exactly that binding goes, found or not; the history gains exactly one delete |
| `RedisSessions.RedisSessionBackendAddrMgr.CleanExpiredSession` | backend.go:580-597 | when due, exactly the expired bindings go; no answer changes now or later |
| `SessionWire.AddLine` | backend.go:805-846 | an add line arrives if and only if no name holds a blank, its seconds clamped to 32 bits |
| `SessionWire.DeleteLine` | backend.go:805-855 | a delete line arrives if and only if the session holds no blank |
| `SessionWire.LineTexts` | backend.go:832-855 | the lines read `add session address seconds` and `delete session` |
| `SessionWire.PublishedLife` | backend.go:832-846 | a published binding lives its lifetime in whole seconds, rounded toward zero |
| `SessionWire.RedisPublisher.ForEachRedis` | backend.go:857-885 | starts at the master, stops at the first client that takes the line, makes it the master, fails only if none takes it (a nil client takes none) |
| `SessionWire.RedisPublisher.AddBackend` | backend.go:832-846 | the add line goes out exactly when some client takes it |
| `SessionWire.RedisPublisher.RemoveSession` | backend.go:848-855 | publishes and forgets locally at once |
| `SessionWire.RedisPublisher.SessionBackendUpdated` | backend.go:805-828 | the history gains exactly what the line says |
| `SessionWire.MasterFollowsAcceptance` | backend.go:857-885 | over any run the master is in range and the client that took the last line anybody took |
| `SessionWire.MasterIsFirstAcceptor` | backend.go:857-885 | a round ends at the first client from the master on that takes the line |
| `Replication.Convergence` | backend.go:728-855 | any interleaving of any number of in-order copies and prompt local deletes ends at one sequential replay of the log |
| `Replication.ConvergesExactly` | backend.go:728-855 | with local deletes at any moment it does so if and only if the replay leaves nothing, or none of them came after every copy had delivered the session's last line |
| `Replication.PromptIsInTime` | backend.go:848-855 | a local delete before any later add of the session is delivered is in time |
| `Replication.ProxiesAgree` | backend.go:728-855 | two proxies fed by one log agree on a session exactly when the replay leaves it unbound or both, or neither, forgot it in time |
| `Replication.LateLocalDeleteDiverges` | backend.go:848-855 | bound, ended and bound again: the proxy that forgets late loses the new binding, the one that forgets at once keeps it |
| `Stickiness.SessionIsSticky` | proxy.go:410-479 | once a backend has taken a request of a session, every later timely request of it is offered to that backend, whatever is interleaved |
| `Stickiness.ConversationIsSticky` | proxy.go:410-479 | the same for any two messages of one conversation, in either direction and after any rewrites |
| `Stickiness.SendBindsTaker` | proxy.go:456-467 | a request that was taken binds its session to who took it, one that was not binds nothing |
| `Stickiness.WhoIsOffered` | proxy.go:421-455 | the bound backend first, then the one Redis names, then a pool; a named backend gets the message only if it accepts |
| `Stickiness.ByeUnbinds` | proxy.go:339-355 | a response to a BYE unbinds its session, any other response changes nothing, and no arrival touches another session |
| `Stickiness.OnlyKnownCounts` | backend.go:737-747 | an address from Redis counts exactly when a pool has it |
| `Stickiness.PublishedIsBinding` | backend.go:832-846 | a binding is published exactly when some client takes the line, and the others read of it the session, the backend and the lifetime in whole seconds |
| `Stickiness.SendBindsExactly` | backend.go:622-633 | a send binds for the whole timeout if and only if Expires fits a Duration or wraps to at least the timeout |
| `Stickiness.OverflowUnbinds` | backend.go:622-633 | with `Expires: 9223372037` the binding is over at once |
| `Stickiness.SessionStores.GetBackend` | backend.go:891-901 | the local answer first, then the Redis answer if a pool has that address |
| `Stickiness.SessionStores.AddBackend` | backend.go:904-910 | the local store learns the binding; the Redis store only publishes it, exactly when some client takes the line |
| `Stickiness.SessionStores.RemoveSession` | backend.go:913-919 | both stores forget the session, and the delete line goes out exactly when some client takes it |
| `Stickiness.OfferToPool` | proxy.go:421-443 | the receiving transport's pool is preferred; somebody takes the message unless all refuse |
| `Stickiness.SendToBackend` | proxy.go:410-479 | offers to the backend the stores name or to the pool, and binds and publishes the session exactly when somebody took the message |
| `Stickiness.HandleSession` | proxy.go:339-355 | a response ends a session, in both stores and on the wire, exactly when it answers a BYE and a store still knows the session |
| `Rotation.AllRefused` | backend.go:364-385 | a turn fails if and only if everybody refuses |
| `Rotation.NoRepeat` | backend.go:412-420 | a turn never comes back to a position |
| `RoundRobin.RoundRobinBackend.AddBackend` | backend.go:297-312 | the new backend replaces one of its address and comes last; list and map agree |
| `RoundRobin.RoundRobinBackend.RemoveBackend` | backend.go:336-351 | exactly that address is gone from list and map, order kept |
| `RoundRobin.RoundRobinBackend.GetBackend` | backend.go:320-328 | found exactly when the address is a member |
| `RoundRobin.RoundRobinBackend.GetNextBackendIndex` | backend.go:401-410 | the index moves one step round the list |
| `RoundRobin.RoundRobinBackend.Send` | backend.go:364-385 | offers in cyclic order to each at most once, stops at the first that accepts, fails only if all refuse |
| `RoundRobin.RoundRobinBackend.HostIPChanged` | backend.go:429-463 | new endpoints for which a backend can be created join and removed ones leave, by membership; other protocols change nothing |
| `RoundRobin.PicksExactly` | backend.go:401-410 | over q full turns and r more steps a position is met q times, and once more if it is among the next r |
| `RoundRobin.Fairness` | backend.go:364-420 | while all accept, any m sends from any index give each backend floor(m/n) or ceil(m/n) |
| `RoundRobin.EndpointInjective` | backend.go:429-463 | different addresses of a host are different members |
| `RoundRobin.EndpointText` | backend.go:429-463 | the address of a backend is `protocol://host:port`, the host bracketed when it has a colon |
| `Resolver.InStrArray` | util.go:28-35 | membership |
| `Resolver.StrArraySub` | util.go:37-45 | the loop computes the list difference, in order |
| `Resolver.SubMembers` | util.go:37-45 | that difference holds exactly the elements the second list lacks |
| `Resolver.SubKeepsOrder` | util.go:37-45 | in the order of the first list |
| `Resolver.MentionDecides` | resolver.go:221-226 | an address the queue mentions ends up as its last mention says, whatever the pool held |
| `Resolver.Settles` | resolver.go:221-226 | what the queue mentions it settles for all pools alike, and leaves the rest alone |
| `Resolver.LateStart` | resolver.go:124-130 | a pool that starts from the current set with older deltas in flight ends at that set |
| `Resolver.BoundIssued` | resolver.go:193-219 | a delta between two address sets at the end of the queue binds a pool for the new one |
| `Resolver.EndpointsApart` | backend.go:429-463 | subscriptions of one pool with other protocol or port never touch each other's members |
| `Resolver.Notify` | resolver.go:221-226 | a callback applies the delta to its own endpoints and to no other subscription's |
| `Resolver.FourthFailureDrops` | resolver.go:193-207 | three failures in a row keep the addresses, the fourth drops them all |
| `Resolver.SuccessForgetsFailures` | resolver.go:193-219 | a success starts the count of failures again |
| `Resolver.AddressWithCallback.ResolveHost` | resolver.go:112-123 | a new host starts with the looked-up addresses, or none; its pool keeps what else it held |
| `Resolver.AddressWithCallback.Register` | resolver.go:124-130 | a late or repeated subscription keeps every pool bound for the current set and what it keeps, whatever the new pool holds already |
| `Resolver.AddressWithCallback.AddressResolved` | resolver.go:193-219 | addresses and failure count move as promised, and every pool stays bound for the current set |
| `Resolver.AddressWithCallback.DeliverNext` | resolver.go:221-226 | delivering the oldest notification keeps that |
| `Resolver.Converged` | resolver.go:193-226 | with nothing in flight every pool holds exactly the last address set and what it keeps, so exactly the last set if and only if it keeps nothing |
| `TransportCache.FullAddrInjective` | transport.go:459-467 | for hosts without brackets, different keys have different texts |
| `TransportCache.BracketsCollide` | transport.go:459-467 | for every port, branch and IPv6 host there are two keys with one text when a host may hold a bracket |
| `TransportCache.StepConsistent` | transport.go:417-537 | whatever happens among hosts without brackets, no two transactions share an object |
| `TransportCache.StepLeads` | transport.go:417-537 | one event takes a waiting transaction over exactly when it accepts at its address while it shares; as long as none did, an event ends the sharing exactly when it removes the base entry |
| `TransportCache.LeadsExactly` | transport.go:417-537 | so over any run: the transaction leads to its connection if and only if it is untouched, and, while it does, shares if and only if it did at first and the base entry was not removed |
| `TransportCache.ResponseFindsItsConnection` | proxy.go:601-647 | through any run of other traffic of hosts without brackets, up to a final response or expiry, a transaction leads to its own connection if and only if nobody was accepted at its address while it shared, which it does at first exactly when the request was the first there |
| `TransportCache.ConnectionIsTaken` | proxy.go:211-273 | from an empty cache, a first request and another connection accepted at its address: the response leaves on that one |
| `TransportCache.LastsAnHour` | transport.go:520-563 | a connection is found for an hour and gone at the first clean-up after that |
| `TransportCache.FinalForgets` | proxy.go:638-642 | after a final response the key leads to its connection no longer, and no other key is touched |
| `TransportCache.ProtocolsOfKeys` | transport.go:267-267 | the cache knows udp and tcp; over udp a key carries no transaction |
| `TransportCache.SharedWhenFirst` | transport.go:469-511 | a request makes its transaction share if and only if it is the first at its address, or repeats one that was |
| `ClientTransports.FailOverClientTransport.Send` | transport.go:208-222 | delivers exactly when there is a primary and it can |
| `ClientTransports.ClientTransportMgr.CleanExpiredTransport` | transport.go:520-537 | at most once a minute, exactly the expired keys go, by their texts and by their parts |
| `ClientTransports.ClientTransportMgr.ExpiredTexts` | transport.go:526-532 | the loop finds exactly the keys whose transport has expired |
| `ClientTransports.ClientTransportMgr.GetTransport` | transport.go:417-443 | the object under the key's text, old or new, and an error, after the clean-up, exactly for an unsupported protocol or when a transport is needed and cannot be created; for hosts without brackets this is the step of the abstract cache |
| `ClientTransports.ClientTransportMgr.CreateClientTransport` | transport.go:469-511 | a fresh object, which becomes a missing TCP base entry too; nothing changes when it cannot be created |
| `ClientTransports.ClientTransportMgr.RemoveTransport` | transport.go:447-457 | exactly that text goes, and for hosts without brackets exactly that key |
| `ClientTransports.ClientTransportMgr.Register` | proxy.go:262-270 | the connection becomes the primary of the key's object and of no other, if that can be had |
| `ClientTransports.ClientTransportMgr.TransportForResponse` | proxy.go:635-647 | the transaction's object is used, and forgotten after a final response; without one nothing is sent |
| `ClientTransports.SameLookup` | transport.go:429-434 | for hosts without brackets the map by texts answers as the map by parts |
| `ClientTransports.SameEntered` | transport.go:429-443 | and is extended as it |
| `ClientTransports.LeftIsWithout` | transport.go:447-457 | and loses what it loses |
| `ClientTransports.HeapIsConsistent` | transport.go:417-511 | the aliasing of the heap obeys the abstract invariant |
| `PreConfigRoutes.BodyParses` | preconfig_route.go:73-76 | the rewritten text parses to one piece per pattern character |
| `PreConfigRoutes.PiecesDenote` | preconfig_route.go:73-76 | those pieces match exactly the hosts the wildcard denotes |
| `PreConfigRoutes.CompilationPreservesMeaning` | preconfig_route.go:56-76 | so the compiled expression does, over the whole host |
| `PreConfigRoutes.LiteralDenotesItself` | preconfig_route.go:56-71 | without a star a pattern denotes only itself |
| `PreConfigRoutes.StarDenotes` | preconfig_route.go:56-76 | a star stands for any run of characters, also none |
| `PreConfigRoutes.LiteralDenotesPrefix` | preconfig_route.go:56-76 | every other character stands for itself |
| `PreConfigRoutes.NextHopRoundTrip` | preconfig_route.go:21-42 | a next hop written `host:port` comes back |
| `PreConfigRoutes.NextHopDefaults` | preconfig_route.go:21-42 | without a port the default of the protocol counts; a port that is no number is an error |
| `PreConfigRoutes.PreConfigRoute.AddRouteItem` | preconfig_route.go:48-54 | the entry replaces that of its destination; a bad next hop changes nothing |
| `PreConfigRoutes.PreConfigRoute.FindRoute` | preconfig_route.go:56-71 | the exact entry, else some entry whose wildcard denotes the host, else the default, in any map order |
| `PreConfigRoutes.AnswersInOrder` | preconfig_route.go:56-71 | any answer is the exact entry, else one that denotes the host, else the default; there is none only without all of them |

## Left out

- Sockets, DNS, Redis calls, goroutines, logging, YAML and command line: whether a send, dial, publish or lookup
  succeeds is an input, and so is the clock, which never runs backwards and is read once per operation.
- Random branches and tags are inputs; the regular expressions of `MyName` and whether a request is the proxy's
  own are not part of this model.
- Text: only ASCII white space and ASCII case folding. `%` in display names, bracketed absolute URIs and parameters,
  which the source passes through format strings, is taken as ordinary text.
- IPv6 literals in Via and SIP URIs.
- TransportCache.ResponseFindsItsConnection: traffic whose hosts hold brackets, whose keys can collide in the source
  (`BracketsCollide`); the methods of `ClientTransportMgr` say by texts what they do with it.
- TcpReturn.ResponseReturnsOnItsConnection: likewise.
- TransportCache.LeadsExactly: a connection that is accepted is another one than that of the waiting request.
- Addresses, parameters and Route entries inside a header object are values: nothing updates them in place there.
  SIPURI, Via, ViaParam, Route, RecordRoute, FromSpec, To, Header and Message are objects.
- The loops that read or write `;`-lists are one method each (`CollectParams`, `AppendParams`), and `To.Parse` uses
  the parser of FromSpec; the source repeats them.
- Wire.ValueTravels: under the exact conditions of the round trips above, and for a CSeq method that is one token; a
  value outside them need not read back.
- Framing.MessageRoundTrip: for header names without `:` and line feed, values trimmed and on one line, and start
  lines made of tokens. `ParsedIsWellFormed` shows that this leaves out nothing the parser accepts but requests
  with a URI that is not stable.
- MessagePath.ReversePath: every proxy of the chain knew its transports; `RestoredIffPushed` says what happens
  otherwise. The far end may change the top entry only.
- The choice of the transport whose address goes into the own Via, for a backend or a known peer, and the
  configured next hop when there is no Route: they enter as `transportKnown`, `own` and `ownRecord`. `SelfLearnRoute`,
  `PreConfigHostResolver` and `Register` are not part of this model.
- Replication.Convergence: lost or reordered deliveries, and adds that run out while the log is being delivered.
- Stickiness: the two stores of the composite are fields, not a list; a pool that a session is bound to as a whole
  does not occur, since the bound backend is the one that took the message.
- Open and closed connections of backends: AddBackend closes an object and then uses it when the address is already
  there. Membership and order are modelled, the connection's state is not.
- Resolver.Notify: a backend can be created for every endpoint it is told of. One host is modelled, not the map of
  hosts, nor StopResolve.
- Notifications are delivered in the order they were issued; the source starts a goroutine for each.
- ClientTransports.FailOverClientTransport.Send: without secondaries; the constructor ignores those it is given and
  nothing adds any, so there are never any.
- ClientTransports.ClientTransportMgr.TransportForResponse: the branch that answers from a learnt UDP listener is
  left out.
- PreConfigRoutes.CompilationPreservesMeaning: for ASCII patterns without the characters that mean something else in a
  regular expression (backslash, `+ ? ( ) [ ] { } ^ $` and the bar), and hosts without a line feed.
- PreConfigRoutes.BodyParses: for such patterns.
- PreConfigRoutes.PreConfigRoute.AddRouteItem: asks for such a pattern, so that FindRoute can rely on it.
- PopRecordRoute, Clone, server transactions, ByteArrayPool and response creation would add only easy members.
