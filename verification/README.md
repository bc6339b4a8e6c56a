# A verified model of the sipws registrar and proxy

sipws is a small SIP server: clients register their location over UDP, TCP or WebSocket, and the server answers,
challenges, forwards and relays messages between them.  This project models its logic in Dafny and proves what the
logic is for.  `dafny verify dfyconfig.toml` checks all of it.

## The parts

| files | what they model |
|---|---|
| `Text`, `Lines`, `Wrappers` | the string, number and line helpers, with 32-bit and 64-bit widths written out |
| `AddressText`, `Contacts`, `LineParameters`, `Addresses` | the SIP address scanner and printers, and the address object with its self-purging location list |
| `Locations`, `LocationHistory` | deadlines, the list operations, and what they amount to over time |
| `Registry`, `AccountMap`, `Json`, `Persistence` | the registry object, its contents as a map, and its stored form |
| `Digest`, `DigestPrinter`, `DigestRoundTrip`, `DigestOrder`, `DigestReading`, `DigestResponse`, `DigestStandard` | the digest header scanner, printer and response, and the response against the standard's formula (sections 3.2.1 and 3.2.2 of RFC 2617) |
| `Messages`, `Parameters`, `Proxy`, `Dialog` | a message and its header parameters, one message through registrar and proxy on values, and the dialog object that does the same in place |
| `Registrar`, `RegistrarRuns`, `BindingHistory`, `Rebinding` | what a message does to the bindings and to whose, the refinement of an abstract registrar over all runs, and bindings told from the history of events (section 10.3 of RFC 3261) |
| `Routing`, `Hops`, `Chains`, `Answering`, `Contents` | where messages go, how far, what senders are told, and what every message says (sections 8.2.6 and 16 of RFC 3261) |
| `ConnectionIndex`, `Delivery`, `Listeners`, `Sockets` | the WebSocket connection maps, the two linked listeners and their sockets |
| `EndToEnd`, `Service`, `Sessions`, `Shortfalls` | the parts together: challenge to binding, arrival to delivery, registry and connections over a joint life; and inputs on which the code falls short |

The objects of the server (`SipAddress`, `SipRegistry`, `SipDialog`, `WSListener`, `SipServer`) are classes whose
methods update their fields in place; each method is proved equal to a function on values, and the theorems are about
those functions.  A registry is seen through `View()`, the map of its entries' values.  `Clean` is the purge, `Located`
the lookup with its placeholder; `SameView` says two registries cannot be told apart from a given time on.

## What has to be supplied

* Clock readings are the parameter `now`, which is positive.  Nonces are parameters.  Name resolution and MD5 are
  functions in `Env`; routing assumes that the empty name does not resolve, and of MD5 nothing is assumed but the length of its result.
* Whether a transport accepts a text, and what the system returns for a new socket, are parameters of the listeners.
* The collision statements name the pairs of texts on which the hash would have to collide, so they hold for every
  hash function.

## Where the code falls short of what it is for

The model does what the code does.  These are proved, with the exact condition under which the code does better and an
input on which it does not:

* Unregistering can remove two bindings at once (`UnregisterRemovesOnlyOne`, `UnregistersBoth`), because the reference it
  passes reads the slot into which the purge moved the next location.
* A negative Max-Forwards is never stopped (`CountBoundsHops`, `NegativeCountsPass`); RFC 3261 only allows 0 to 255.
* A granted message, REGISTER or not, rebinds the entry To names, and From and To are never compared
  (`OthersStayUnlessGranted`, `RegistersForAnother`).  A call from a caller without a live binding but with good
  credentials therefore rebinds the callee to the caller and comes back (`CopyDestination`, `InviteComesBack`).
* The password checked is that of the account named by the domain in the client's header, not of From's own
  (`GrantChecksSender`, `OtherPasswordGrants`).
* A granted REGISTER for a user who has no account is answered with 200 and binds nothing (`ConfirmedIsBound`,
  `ConfirmsUnknown`).
* An update moves To's entry into the registry's domain without moving it to another key (`KeysStayRight`,
  `KeyGoesWrong`).
* A display name with a colon and no `@` behind it spoils its contact; with an `@` behind it the name is read in place of
  user and host (`ContactRoundTrip`, `NameIsRead`, `NamesSpoilContacts`).
* The `proto` parameter of a contact with a plain display name, user, host and tag never reads back
  (`TransportRoundTrip`, for every such contact).
* An empty default address beside a domain is not restored by loading (`StoreRoundTrip`, `AddressIsFilledIn`).
* A comma inside a quoted digest value cuts it (`HeaderRoundTrip`, `CommaCuts`).
* The nonce count is padded with blanks where RFC 2617 has zeros, so a client that counts by the standard is refused under
  auth-int up to its 268435455th request (`CountIsStandard`, `StandardClient`).
* The test for a scheme asks whether the text before the colon occurs in the scheme's name: `sip:` is read as sips, and no
  line as wss (`SchemesRead`).
* A host is read up to its first character that is no letter, digit or dot, so hosts that differ behind a hyphen share keys
  (`ParsesAs`, `HyphensCut`).
* A header parameter is read with all that stands behind it (`ParameterRunsOn`, `BranchRunsOn`).
* Removing a location that names no transport, line or instance removes the first live one (`PartialMatch`).
* Splitting throws on every text that ends in an odd number of CR and LF characters (`SplitThrows`, `SplitExamples`).
* Unquoting throws on a lone quote, and then a request goes unanswered (`HeaderThrows`, `LoneQuoteThrows`, `RequestAnswer`).
* The nonce of a credential is never compared with one that was issued (`GrantIgnoresNonce`, `HeaderIsGoodAgain`).
* An answer to a WebSocket request is looked up by the key of its connection, so after another connection has taken the
  key it goes there, or nowhere (`AnswersGoBack`, `AnswerGoesElsewhere`).
* A failed binding leaves the socket in its slot, and every further call to open it reports success
  (`SuccessMeansBound`, `OpenTwice`).
* The comment at SipAddress.cpp:400 promises the last updated location; the code takes the first live one, which was put
  longest ago (`FirstIsLatest`, `EarlierPutIsTaken`).

The comment on `sendMessage` (SipServer.cpp:254, WSListener.cpp:204) says that true asks for another protocol; in the code
it is false that does (SipServer.cpp:265, WSListener.cpp:187-189), and the model follows the code.

## Model

| member | source | states |
|---|---|---|
| `Text.CompareIgnoreCase` | sipwsUtil.cpp:77-86 | The comparison loop says yes exactly when the lengths agree and every character agrees up to ASCII case. |
| `Text.DecRoundTrip` | sipwsUtil.cpp:217-232 | Every 32-bit int, printed in decimal and read back, is itself whatever default is given. |
| `Text.IntReads` | sipwsUtil.cpp:217-232 | A decimal number is read from behind white space and a sign up to the first character that is no digit; one that does not fit an int, and a text without a number, yield the default. |
| `Text.TrimBlanks` | sipwsUtil.cpp:95-130 | White space around a text is trimmed off, whatever there is of it. |
| `Messages.CommandRoundTrip` | sipwsUtil.cpp:309-372 | A method is read from a name if and only if it is printed as that name. |
| `Text.HexRoundTrip` | sipwsUtil.cpp:235-242 | A `size_t` printed in blank-padded hexadecimal of any width, trimmed and read back, is itself. |
| `Text.HexShape` | sipwsUtil.cpp:50-55 | The padded text holds no comma or quote, trims on the left to its bare digits and has nothing to trim on the right. |
| `Text.BytesToHex` | sipwsUtil.cpp:64-72 | The loop over the digest yields two lower-case hexadecimal digits a byte, in order. |
| `Text.HexTextFree` | sipwsUtil.cpp:64-72 | Hash text never holds a comma, a quote or a colon, so it is safe inside the digest header grammar. |
| `Text.HexTextInjective` | sipwsUtil.cpp:64-72 | Different digests print differently. |
| `Lines.SplitLines` | sipwsUtil.cpp:580-602 | The index loop, which looks for either delimiter character and always skips two, returns the recursive split, and throws where that does. |
| `Lines.SplitThrows` | sipwsUtil.cpp:580-602 | Splitting throws if and only if the text ends in an odd number of delimiter characters, whichever they are. |
| `Lines.SplitExamples` | sipwsUtil.cpp:594-599 | A text ending in CR LF CR throws; one ending in CR LF or in LF LF returns an empty last line. |
| `Lines.SplitJoin` | sipwsUtil.cpp:580-602 | Splitting undoes joining with CRLF for every non-empty list of lines free of CR and LF. |
| `Lines.JoinSplit` | sipwsUtil.cpp:580-602 | Splitting returns, and joining its result gives the text back, if and only if CR and LF occur only as the pair CR LF. |
| `Locations.CleanKeeps` | SipAddress.cpp:369-370 | Every unexpired location survives the purge, at the place given by the number of unexpired ones before it. |
| `Locations.CleanKeepsOnly` | SipAddress.cpp:369-370 | Nothing else survives: every place of the purged list is that of an unexpired location of the old one. |
| `Locations.CleanClean` | SipAddress.cpp:358-371 | Purging twice at non-decreasing times is purging once at the later time. |
| `Locations.LookupKeepsLive` | SipAddress.cpp:408-418 | Looking a location up, purge and placeholder included, changes nothing that is live at or after the time of the lookup. |
| `Locations.PurgeAtZeroIsIdle` | SipAddress.cpp:199-207 | The purge at time zero hidden in the printers drops nothing that a lookup at a real time returned. |
| `Locations.UnboundExactly` | SipDialog.cpp:49-55 | What unregistering leaves of any list, although the reference it passes aliases the first slot of the list being purged. |
| `Locations.UnregisterRemovesOnlyOne` | SipAddress.cpp:420-427 | Unregistering removes exactly the first live binding if and only if it is the only one or its shortened life has not run out; otherwise the second one goes too. |
| `Locations.ReboundLive` | SipDialog.cpp:49-65 | Registering replaces the first live binding, keeps every other, and the new one is live at t exactly for t up to `now` plus the expiry. |
| `LocationHistory.ApplyStep` | SipAddress.cpp:377-438 | One put or remove keeps identities distinct and the list ordered by registration, and the list afterwards holds exactly the new put and the unexpired others. |
| `LocationHistory.PartialMatch` | SipAddress.cpp:377-397 | Two locations match if and only if they are the same in everything the search does not leave open; a search that leaves all open removes the first live location, whichever that is. |
| `LocationHistory.ListAgreesWithHistory` | SipAddress.cpp:420-438 | Over any timed run of puts and removes from the empty list: identities stay distinct, registration times do not decrease along the list, and a location is found live exactly when it is the latest put of its seven-field identity, not removed since and not expired. |
| `LocationHistory.FirstIsLatest` | SipAddress.cpp:399-406 | The location a lookup takes from an ordered list is a last registered one if and only if all live locations were registered at the same time. |
| `LocationHistory.EarlierPutIsTaken` | SipAddress.cpp:399-418 | Two concrete puts, both live, of which a lookup takes the earlier. |
| `AddressText.IdAndDomainAreClean` | SipAddress.cpp:97-139 | Whatever the line, the parsed user holds no `@` and the parsed host only letters, digits and dots. |
| `AddressText.ParsesAs` | SipAddress.cpp:73-139 | Any text `before:user@host` followed by a non-host character parses to exactly that user and host. |
| `AddressText.KeySplits` | SipAddress.cpp:189-194 | A key built from an `@`-free user and host has no other reading as user and host. |
| `AddressText.OwnTextsResolve` | SipAddress.cpp:199-217 | Both printed forms of an entry with a clean user and host resolve to the entry's key, tag or no tag. |
| `AddressText.ResolutionIsStable` | SipRegistry.cpp:157-173 | If any header text resolves to an entry stored under its own key, then that entry's printed address and tagged address resolve to the same key. |
| `Contacts.ContactRoundTrip` | SipAddress.cpp:332-355 | A printed contact reads back as the same user, host, port and tag if and only if the display name has no colon, the user no `@`, the host only letters, digits and dots, and the tag no semicolon; for any port, with and without a location, and any display name without an `@` behind a colon. |
| `Contacts.ContactText` | SipAddress.cpp:332-355 | A contact is the address in angle brackets with port, transport and tag, behind the display name in the only two double quotes there are, those inside turned into blanks. |
| `Contacts.ProtoParamText` | SipAddress.cpp:332-355 | The transport printed for each of the four protocols. |
| `Contacts.NameIsRead` | SipAddress.cpp:73-105 | A display name with an `@` behind its first colon is itself read for the user and host, so these read back if and only if the name spells them. |
| `Contacts.ColonInName` | SipAddress.cpp:73-105 | With any other colon in the display name the user never reads back. |
| `Contacts.TransportRoundTrip` | SipAddress.cpp:144-146 | For a contact whose display name has no colon, whose user and host are clean and whose tag has no semicolon, the transport reads back if and only if there is none to print and none to default to: the closing bracket stays attached to any that is printed. |
| `LineParameters.ParamIsValueOf` | SipAddress.cpp:271-287 | Behind any text without its mark, a parameter reads as the first one of that name, or as nothing. |
| `LineParameters.LineReads` | SipAddress.cpp:52-170 | Of a line with scheme, user, host, port and any list of parameters everything is read: the six parameters it knows by name, each the first of its name, in any order and among any others. |
| `LineParameters.TagReadsBack` | SipAddress.cpp:199-208 | The tag of an entry reads back from its tagged address. |
| `LineParameters.SchemesRead` | SipAddress.cpp:84-96 | No line is ever read as plain sip or as wss; the scheme printed for a prefix reads back if and only if it is sips or ws. |
| `Addresses.SipAddress.Account` | SipAddress.cpp:38-50 | A new account has the given fields, the registry as origin and no locations. |
| `Addresses.SipAddress.Copy` | SipAddress.cpp:21-36 | The copy loop yields an address of equal value, and leaves the original as it was. |
| `Addresses.SipAddress.Stored` | SipAddress.cpp:219-238 | The loop over the JSON locations yields the address the JSON value stands for. |
| `Addresses.SipAddress.Parse` | SipAddress.cpp:56-173 | The scanning constructor yields the recursive reading of the line. |
| `Addresses.ScanLine` | SipAddress.cpp:73-139 | User, host and the single location found by the scan, and none at all when a colon has no `@` after it. |
| `Addresses.ScanLocation` | SipAddress.cpp:108-172 | Host, port and parameters scanned in sequence are those of the recursive reading. |
| `Addresses.ScanPort` | SipAddress.cpp:108-128 | The port behind the next colon, and a bound that cannot cut the host short. |
| `Addresses.ScanDigits` | SipAddress.cpp:113-120 | The digit loop stops at the first non-digit behind the first character, which it never looks at. |
| `Addresses.ScanHost` | SipAddress.cpp:131-137 | The host loop, bounded by the port colon, stops where an unbounded one would. |
| `Addresses.SipAddress.Clean` | SipAddress.cpp:358-371 | The in-place erase-remove loop leaves the purged list. |
| `Addresses.SipAddress.GetLocationIterator` | SipAddress.cpp:377-397 | Purges, then finds the first match or the end. |
| `Addresses.SipAddress.IsExpired` | SipAddress.cpp:309-315 | True exactly when nothing is live, and the list is purged as a side effect. |
| `Addresses.SipAddress.GetLocation` | SipAddress.cpp:408-418 | Purges and leaves a first location to point at, a placeholder if nothing was live. |
| `Addresses.SipAddress.RmLocation` | SipAddress.cpp:420-427 | Erases the first match of the target as it reads after the purge; true exactly when something besides the purge went. |
| `Addresses.SipAddress.PutLocation` | SipAddress.cpp:429-438 | Erases the first match and appends the value with its registration time. |
| `Addresses.SipAddress.GetAddressTag` | SipAddress.cpp:199-207 | Prints the tagged address of the purged list. |
| `Addresses.SipAddress.ToContact` | SipAddress.cpp:332-355 | Prints the contact of the purged list. |
| `Registry.SipRegistry.constructor` | SipRegistry.cpp:4-7 | A new registry is empty. |
| `Registry.SipRegistry.SetVersion` | SipRegistry.cpp:31-36 | Stores the new version and returns the old one. |
| `Registry.SipRegistry.Clear` | SipRegistry.cpp:38-42 | Afterwards there are no entries and the version is zero. |
| `Registry.SipRegistry.Put` | SipRegistry.cpp:44-46 | The registry changes at the key the value computes for itself and nowhere else, and what it keeps is a fresh copy. |
| `Registry.SipRegistry.GetById` | SipRegistry.cpp:170-173 | The entry of a user and domain, or null. |
| `Registry.SipRegistry.GetByAddress` | SipRegistry.cpp:157-161 | The entry a header text resolves to, or null. |
| `Registry.SipRegistry.Locate` | SipAddress.cpp:408-418 | Locating one entry through a reference changes no other entry of the registry. |
| `Registry.SipRegistry.Expired` | SipAddress.cpp:309-315 | Asking one entry through a reference purges it and changes no other entry. |
| `Registry.SipRegistry.FindExpired` | SipRegistry.cpp:201-212 | Stops at the first entry without live locations; the purging predicate works on a copy, so nothing changes. |
| `Registry.KeptStep` | SipRegistry.cpp:211-213 | Erasing the entry found turns what is left for one position into what is left for the next. |
| `Registry.SipRegistry.EraseNext` | SipRegistry.cpp:211-213 | One turn of the erase-while-iterating loop advances the sweep by one expired entry, or completes it. |
| `Registry.SipRegistry.Sweep` | SipRegistry.cpp:196-214 | The find/erase loop ends and leaves exactly the entries with a location live at the given time, each otherwise unchanged. |
| `Registry.SipRegistry.PutStored` | SipRegistry.cpp:73-77 | The put loop adds the stored entries in order, later ones over earlier ones. |
| `Registry.SipRegistry.Load` | SipRegistry.cpp:64-79 | The state becomes what the JSON value stands for, over the entries already there; fails exactly when the data is no array. |
| `Registry.SipRegistry.ToJson` | SipRegistry.cpp:136-149 | The loop lists every entry exactly once, in some order, beside domain and default address. |
| `Json.LocationRoundTrip` | SipLocation.cpp:12-57 | Every location survives being stored, although zero and empty members are left out. |
| `Json.AddressRoundTrip` | SipAddress.cpp:219-269 | Every address, locations included, survives being stored with its password, and comes back with a blank one from a listing. |
| `Json.PasswordIsHidden` | SipAddress.cpp:243-248 | A listing of an address is the same whatever its password. |
| `Json.PutAllRebuilds` | SipRegistry.cpp:73-77 | Loading stored entries always gives a registry whose keys are its entries' own, and the same map if the keys were right before. |
| `Json.StoreRoundTrip` | SipRegistry.cpp:64-79 | Loading what was stored rebuilds the same registry, and loading a listing the registry with blank passwords, if and only if every key is its entry's own key and the default address is not empty beside a domain. |
| `Json.ListingHidesPasswords` | SipRegistry.cpp:135-152 | Registries that differ in nothing but passwords are listed the same. |
| `Persistence.KeysOverRuns` | SipRegistry.cpp:44-46 | In one domain, every run of messages, provisioning, loading, clearing and sweeping keeps every key its entry's own. |
| `Persistence.RunsCanBeStored` | SipRegistry.cpp:136-149 | After any such run, storing and loading rebuilds exactly the same registry unless the default address is empty beside a domain. |
| `Digest.RunOnThrows` | AuthHeaderMD5.cpp:70-73 | When the scan of a segment without `=` runs on into a later one and its value throws, the later segment throws as well. |
| `Digest.ScanStepIsSegment` | AuthHeaderMD5.cpp:62-75 | One turn of the scanning loop does what its comma-separated segment means, although the search for `=` may leave the segment. |
| `Digest.ScanParameters` | AuthHeaderMD5.cpp:61-76 | The scanning loop ends and equals the fold of the parameter meaning over the comma-separated segments, exceptions included. |
| `Digest.ParseAuthorizationHeader` | AuthHeaderMD5.cpp:46-77 | The whole header, exceptions included; true exactly for a Digest header that leaves user name and response non-empty. |
| `Digest.FoldThrows` | sipwsUtil.cpp:88-97 | The fold throws if and only if some segment's value is a lone double quote. |
| `Digest.HeaderThrows` | AuthHeaderMD5.cpp:46-77 | Reading a header leaves by an exception if and only if it is a Digest header and the text behind the first `=` of some comma-separated segment is a single double quote, blanks aside. |
| `Digest.LoneQuoteThrows` | sipwsUtil.cpp:88-97 | A concrete header that throws. |
| `DigestPrinter.StreamServerItems` | AuthHeaderMD5.cpp:164-179 | The first half of the stream is the list of server items, empty fields omitted. |
| `DigestPrinter.StreamClientItems` | AuthHeaderMD5.cpp:181-190 | The second half appends the client items, with zero counts and empty fields omitted. |
| `DigestPrinter.PrintValue` | AuthHeaderMD5.cpp:162-197 | Streaming every item with a trailing separator and erasing the last one yields the items joined by separators. |
| `DigestPrinter.SegmentsOfJoin` | AuthHeaderMD5.cpp:62-75 | Cutting at commas undoes joining comma-free segments with commas. |
| `DigestRoundTrip.CountValue` | AuthHeaderMD5.cpp:107-117 | Any nonce count, negative ones included, survives the conversion to `size_t`, the padded hexadecimal and the conversion back. |
| `DigestRoundTrip.FoldCommaFree` | AuthHeaderMD5.cpp:60-75 | Scanning never puts a comma into a field. |
| `DigestRoundTrip.HeaderRoundTrip` | AuthHeaderMD5.cpp:162-197 | Printing parameters and scanning the text gives them back field by field if and only if no field holds a comma; for every nonce count and both flags. |
| `DigestRoundTrip.ShortHeaderRoundTrip` | AuthHeaderMD5.cpp:162-184 | The short form of the header holds the server's part of the parameters, and reads back to it if and only if that has no comma. |
| `DigestOrder.SegmentsCommute` | AuthHeaderMD5.cpp:84-127 | Two well-formed segments whose names differ up to case can be applied in either order. |
| `DigestOrder.OrderDoesNotMatter` | AuthHeaderMD5.cpp:84-127 | Permutations of well-formed segments with distinct names have the same effect. |
| `DigestOrder.HeaderOrderDoesNotMatter` | AuthHeaderMD5.cpp:60-75 | Two Digest headers whose segments are permutations of each other read alike. |
| `DigestReading.FieldByName` | AuthHeaderMD5.cpp:84-127 | A parameter is meant by a name if and only if the name is its own in any mixture of cases. |
| `DigestReading.FlagsRead` | AuthHeaderMD5.cpp:92-97 | auth-int is meant wherever a value mentions it, and MD5-sess where the value is its name, both in any case. |
| `DigestReading.SchemeReads` | AuthHeaderMD5.cpp:51-58 | A header is a Digest header if and only if the text before its first blank says so in any case. |
| `DigestReading.WrittenReads` | AuthHeaderMD5.cpp:70-73 | A parameter reads as its name and value whatever white space stands around them and whether or not the value is quoted. |
| `DigestReading.HeaderReads` | AuthHeaderMD5.cpp:46-77 | Any Digest header of comma-free parameters, however written, reads as their names and values in order. |
| `DigestResponse.AnsweredHeaderIsAccepted` | AuthHeaderMD5.cpp:300-336 | A response computed with the password, printed into a header and scanned by the server, is accepted: MD5 and MD5-sess, with and without integrity protection, for every hash function and all comma-free parameters. |
| `DigestResponse.FirstHashBinds` | AuthHeaderMD5.cpp:310-313 | Equal first hashes come from equal passwords unless the hash collides on texts that are named. |
| `DigestResponse.SecondHashBinds` | AuthHeaderMD5.cpp:315-321 | Equal second hashes come from equal methods and, under integrity protection, equal bodies, unless the hash collides on texts that are named. |
| `DigestResponse.AcceptedResponseBinds` | AuthHeaderMD5.cpp:300-336 | A response the server accepts was computed for the same method and password and, under integrity protection, the same body, unless MD5 collides on one of five named pairs of texts. |
| `DigestStandard.CutColons` | AuthHeaderMD5.cpp:310-336 | Cutting a colon-joined text gives the fields back, where none but the last holds a colon. |
| `DigestStandard.ResponseIsStandard` | AuthHeaderMD5.cpp:306-336 | In all four modes the response is the hash of the text of section 3.2.2.1 of RFC 2617, defined on its own: user, realm and password; nonce and client nonce of the session; method, uri and body; nonce, count, client nonce and qop. |
| `DigestStandard.ResponseFields` | AuthHeaderMD5.cpp:306-336 | The colon-separated fields of the three texts: user, realm, password; method, uri and body hash; first hash, nonce, count, client nonce, auth-int, second hash. |
| `DigestStandard.ResponsesBind` | AuthHeaderMD5.cpp:306-336 | Equal responses for any two sets of parameters mean the same nonce, mode, user, realm, password, method and uri and, under auth-int, count, client nonce and body, or a collision of MD5 on texts that are named; where only one side uses MD5-sess, what the other one's fields are. |
| `DigestStandard.ColonInUserShifts` | AuthHeaderMD5.cpp:310-313 | Two concrete users and realms, one with a colon each, have the same response. |
| `DigestStandard.CountIsStandard` | sipwsUtil.cpp:50-55 | The nonce count is printed as the standard's eight digits if and only if it needs no padding. |
| `DigestStandard.StandardClient` | AuthHeaderMD5.cpp:323-335 | A client that counts by the standard is authorized, save that under auth-int a count of fewer than eight digits is only by a collision of MD5. |
| `DigestStandard.StandardAnswerIsAccepted` | AuthHeaderMD5.cpp:300-336 | An answer computed by the standard's own formula, printed and scanned, comes back field by field and is authorized, with that exception. |
| `Dialog.SipDialog.GetTag` | SipDialog.cpp:17-29 | The caller's tag with the counter untouched, or the next number, which wraps to 1 after 999999. |
| `Dialog.SipDialog.PrepareAnswer` | SipDialog.cpp:88-99 | Answer skeleton, branch and counter, with the counter drawn at most twice. |
| `Dialog.SipDialog.ReadCredentials` | SipDialog.cpp:109 | The presented parameters, with the registry's domain where the header names none. |
| `Dialog.SipDialog.IsByUser` | SipDialog.cpp:460-464 | True exactly when From resolves to an entry of that user and domain. |
| `Dialog.SipDialog.Authenticate` | SipDialog.cpp:441-455 | True exactly when a named user of the presented domain exists and the response fits the stored password. |
| `Dialog.SipDialog.AddWWWAuthenticate` | SipDialog.cpp:427-436 | The answer becomes a 401 with the printed challenge. |
| `Dialog.SipDialog.WriteLocation` | SipDialog.cpp:49-65 | The field-by-field writes through the reference amount to unbinding or rebinding the entry's first location. |
| `Dialog.SipDialog.WriteEntry` | SipDialog.cpp:49-65 | The writes through the reference change that entry of the registry and no other. |
| `Dialog.SipDialog.UpdateLocation` | SipDialog.cpp:43-73 | The registry changes in To's entry only, the answer carries the expiry, and nothing happens when To is unknown. |
| `Dialog.SipDialog.Question` | SipDialog.cpp:109-121 | A caller without a live binding is admitted with an update or refused with a challenge. |
| `Dialog.SipDialog.AdmitCaller` | SipDialog.cpp:101-123 | Registry, message and verdict after the caller's half of the step. |
| `Dialog.SipDialog.LocateCallee` | SipDialog.cpp:125-132 | Registry and message after the callee was looked up, and a list that printing its tag will not purge further. |
| `Dialog.SipDialog.Route` | SipDialog.cpp:158-164 | The copy for the entry's first location, if its host resolves; the purge inside the tag printer leaves the registry as it is. |
| `Dialog.SipDialog.Call` | SipDialog.cpp:157-168 | The rewritten copy of an ACK, CANCEL, INVITE or OPTIONS. |
| `Dialog.SipDialog.DispatchToCallee` | SipDialog.cpp:134-306 | The messages for requests that need the callee; the registry is left alone. |
| `Dialog.SipDialog.HandleRegister` | SipDialog.cpp:206-219 | A REGISTER updates To's entry when its credentials are good, is challenged when they are not, and leaves by an exception when they cannot be read. |
| `Dialog.SipDialog.Dispatch` | SipDialog.cpp:134-316 | The whole command switch. |
| `Dialog.SipDialog.ProcessResponse` | SipDialog.cpp:342-422 | The relay of a response, and the purge it does on the way. |
| `Dialog.SipDialog.ProcessRequest` | SipDialog.cpp:87-317 | A request with hops left, from answer skeleton to command switch. |
| `Dialog.SipDialog.MkResponse` | SipDialog.cpp:75-317 | The object's whole step: new registry contents, new counter and the messages appended are those of the message step on values, which the lemmas below are about. |
| `Dialog.LocatedThenPurged` | SipDialog.cpp:106-107 | Locating and then asking for expiry leaves the entry purged, with the right verdict. |
| `Dialog.PurgedThenLocated` | SipDialog.cpp:126-131 | Asking for expiry and then locating leaves the entry as one lookup would, with the right verdict. |
| `Registrar.LookupKeepsView` | SipAddress.cpp:408-418 | Purging and locating an entry changes nothing that can be seen from `now` on. |
| `Registrar.SameReading` | SipDialog.cpp:101-112 | Counting Max-Forwards down and reading headers through `operator[]` never changes which accounts, expiry and credentials a message names. |
| `Registrar.CallerEffect` | SipDialog.cpp:101-123 | The caller's half of the step leaves the view alone, except for the update of a caller who is not registered and has good credentials. |
| `Registrar.CalleeEffect` | SipDialog.cpp:125-316 | The callee's half leaves the view alone, except for the update of a granted REGISTER. |
| `Registrar.StepEffect` | SipDialog.cpp:75-317 | Whatever a message purges and inserts on its way, what can be seen afterwards is the update of To's entry when the update is granted, and the old registry otherwise. |
| `RegistrarRuns.Conservation` | SipDialog.cpp:75-317 | No message adds or removes an account or changes its user or password; for every later time the live locations of every entry are unchanged, except To's when the update is granted. |
| `RegistrarRuns.KeysStayRight` | SipDialog.cpp:59 | A message leaves all keys right if and only if its update does not overwrite the domain of an entry that had another. |
| `RegistrarRuns.StaysSingle` | SipDialog.cpp:43-73 | Lists of at most one location stay that short through any message. |
| `RegistrarRuns.UpdateShows` | SipDialog.cpp:49-65 | An update of the lists is the rebinding or unbinding of the abstract map. |
| `RegistrarRuns.MessageRefines` | SipDialog.cpp:75-317 | One message is one step of an abstract registrar that maps each account to at most one binding with a deadline and never purges (section 10.3 of RFC 3261). |
| `RegistrarRuns.RestoreRefines` | SipRegistry.cpp:73-77 | Loading stored entries on top is putting each account with the binding of its location, in order. |
| `RegistrarRuns.SweepRefines` | SipRegistry.cpp:196-214 | The sweep drops exactly the accounts without a live abstract binding. |
| `RegistrarRuns.RunRefines` | SipDialog.cpp:75-317 | Every run of messages, provisioning, loading, clearing and sweeping with non-decreasing times is a run of the abstract registrar. |
| `RegistrarRuns.RunLookup` | SipDialog.cpp:125-132 | After any run, an entry is live at any later time exactly as long as the abstract binding says, and its first location is that binding. |
| `RegistrarRuns.AbstractionImplements` | SipAddress.cpp:358-418 | Every registry with at most one location per entry implements its own abstraction, so the run theorems start anywhere. |
| `RegistrarRuns.RegisteredUntil` | SipLocation.cpp:30-33 | After a granted update To is live exactly for times up to `now` plus its expiry when that is positive, and never otherwise. |
| `BindingHistory.EventHistory` | SipDialog.cpp:43-73 | After one event a lookup finds what the event left if it touched the account, and what it found before if not; a sweep touches nothing that is ever found again. |
| `BindingHistory.RunHistory` | SipDialog.cpp:43-73 | After any run a lookup finds the binding left by the last event that touched the account - a granted update, provisioning, loading or clearing - or the one from the start. |
| `BindingHistory.LiveSinceLastUpdate` | SipLocation.cpp:30-33 | Where accounts come in without locations, a key is live exactly when the last event that touched it was a granted update whose positive expiry reaches the time asked about. |
| `Rebinding.UpdateShowsUnlessIdle` | SipDialog.cpp:49-65 | An update can be seen unless there was nothing to unbind, or it writes the very binding that is there. |
| `Rebinding.OthersStayUnlessGranted` | SipDialog.cpp:43-73 | Nobody's entry but the sender's changes if and only if the message is not granted, or To names the sender or nobody known, or the update is idle: From and To are never compared. |
| `Rebinding.GrantChecksSender` | SipDialog.cpp:441-464 | Where keys are right, a granted message was checked against its sender's own password if and only if the domain its credentials name is the registry's. |
| `Rebinding.GrantIgnoresNonce` | SipDialog.cpp:206-213 | Two REGISTERs with the same From and Authorization header are granted alike, whatever their To, expiry, sender and time: the nonce is never compared (section 3.2.1 of RFC 2617). |
| `Rebinding.CopyDestination` | SipDialog.cpp:101-132 | Where the copy of a request goes, by the registry before it: to the first live location when nothing is granted; back to the sender's address when an update with a positive expiry is; and to a location behind the first when an update unbinds. |
| `Shortfalls.RegistersForAnother` | SipDialog.cpp:206-219 | A concrete REGISTER of one user that moves another user's binding to the first one's address. |
| `Shortfalls.InviteComesBack` | SipDialog.cpp:101-132 | A concrete INVITE to a reachable user that rebinds the callee and is sent back to the caller. |
| `Shortfalls.ConfirmsUnknown` | SipDialog.cpp:46-48 | A concrete granted REGISTER for a user without an account is answered with 200, changes nothing, and leaves To unreachable. |
| `Shortfalls.KeyGoesWrong` | SipDialog.cpp:59 | A concrete REGISTER after which a key is no longer its entry's own. |
| `Shortfalls.UnregistersBoth` | SipDialog.cpp:49-55 | A concrete stored entry with two live locations that loses both at once. |
| `Shortfalls.AddressIsFilledIn` | SipRegistry.cpp:68-69 | A concrete stored registry that loading changes. |
| `Shortfalls.CommaCuts` | AuthHeaderMD5.cpp:62-73 | A concrete user name that printing and scanning cut. |
| `Shortfalls.NamesSpoilContacts` | SipAddress.cpp:73-105 | Two concrete display names: one whose contact loses its user, and one whose contact reads as somebody else's. |
| `Shortfalls.HyphensCut` | SipAddress.cpp:130-139 | Two concrete hosts with hyphens that resolve to one key. |
| `Shortfalls.BranchRunsOn` | SipDialog.cpp:95-99 | A concrete Via whose branch is read with the parameter behind it. |
| `Shortfalls.OtherPasswordGrants` | SipDialog.cpp:441-455 | Two concrete accounts of one user name: the password of one is good for updates of the other. |
| `Shortfalls.HeaderIsGoodAgain` | SipDialog.cpp:206-213 | A concrete Authorization header that is granted again later, for another To and from another address. |
| `Shortfalls.AnswerGoesElsewhere` | WSListener.cpp:226-235 | A concrete request from one of two connections of a user, answered over the other one, and not at all once that is closed. |
| `Routing.CallerPasses` | SipDialog.cpp:101-123 | Who gets past the first half, in terms of the registry before the message. |
| `Routing.LocatedFirst` | SipDialog.cpp:126-131 | After a lookup the first location is the first live one, or the placeholder. |
| `Routing.CalleeFanout` | SipDialog.cpp:134-306 | The command switch makes at most one answer and then at most one copy, sent to the callee's first location; OPTIONS, which does not test for it, is safe because the placeholder's empty host does not resolve. |
| `Routing.UpdatedLocation` | SipDialog.cpp:49-65 | Whether, and where, To is live once an update is made, read off the list before it: a positive expiry always, otherwise behind the one or two bindings removed. |
| `Routing.NextIsAfter` | SipDialog.cpp:101-132 | Whether, and where, the step leaves To live is foretold from the registry before it. |
| `Routing.RequestRouting` | SipDialog.cpp:101-317 | At most one answer, which carries the transport and address of the request, then at most one copy, to the location To is reached at once the request's own update is made, with one hop less; and there is a copy if and only if the caller is admitted, the callee is known and reached, and its host resolves - all read off the registry before the message. For answers over a WebSocket connection the key decides: see AnswersGoBack. |
| `Hops.ResponseRouting` | SipDialog.cpp:342-422 | A response is relayed if and only if, in the registry before it, From's entry has a live location elsewhere whose host resolves and whose port is not 5060, and then only there; all of it is sent on unchanged but the hop count and one more parameter in Via. |
| `Hops.HeldBackFromThere` | SipDialog.cpp:351-357 | A response for a live user at a place that resolves is held back if and only if it came from that very place: over UDP or TCP, the same host up to case and the same port; another port of the same host is relayed to. |
| `Hops.HopCountsDown` | SipDialog.cpp:77-81 | Whatever is sent on carries exactly one hop less, read back as a number; nothing is sent on at zero. |
| `Hops.ForwardedToResolves` | SipDialog.cpp:192 | A request forwarded by a server with right keys, whose own update moves no entry to another domain, still resolves to the same callee: the rewritten To names the same key. |
| `Hops.HopBound` | SipDialog.cpp:77-81 | Along any chain of servers, where of what one sends the next need only receive method, hop count and To unchanged, a message that starts with n >= 0 hops makes at most n, and a request keeps naming the callee it started with through servers whose keys are right and at which it moves no entry to another domain (sections 16.3 and 16.6 of RFC 3261). |
| `Hops.NegativeCountsFall` | SipDialog.cpp:77-81 | Below zero every hop of any chain lowers the count further, down to the smallest int. |
| `Chains.ForwardedWhateverCount` | SipDialog.cpp:77-81 | A request that can be forwarded is, with the same command and the count one lower, whatever its count, unless that is zero. |
| `Chains.RelayedWhateverCount` | SipDialog.cpp:77-81 | The same for a response that can be relayed. |
| `Chains.OthersStay` | SipDialog.cpp:134-316 | REGISTER, SUBSCRIBE, OPTIONS between two users of one name, in whatever domains, and every unsupported method are never sent on by any server with right keys. |
| `Chains.ServerCanForward` | SipDialog.cpp:101-132 | For every other request there is a server, with right keys, that can forward it. |
| `Chains.ServerCanRelay` | SipDialog.cpp:342-422 | For every response there is a server, with right keys, that can relay it. |
| `Chains.ChainExists` | SipDialog.cpp:77-81 | Whatever is sent on at all makes as many hops as its count allows: through servers with right keys the bound is reached, and from a negative count there are chains of every length down to the smallest int. |
| `Chains.CountBoundsHops` | SipDialog.cpp:77-81 | A number n of hops bounds every chain of a message, request or response, through servers with right keys if and only if the message is never sent on at all or its count is between 0 and n. |
| `Chains.NegativeCountsPass` | SipDialog.cpp:77-81 | A negative count is never stopped: there is a chain of every length from it, through servers with right keys, along which it only falls. |
| `Answering.RegisterAnswer` | SipDialog.cpp:206-219 | A REGISTER without a lone double quote in its credentials gets one answer: 200 if and only if it is granted, otherwise 401 with a challenge for its sender. |
| `Answering.RegisterThrows` | SipDialog.cpp:211 | A REGISTER with a lone double quote for a value in its credentials leaves by an exception and is not answered. |
| `Answering.GarbledThrows` | SipDialog.cpp:109 | The credentials of a message cannot be read if and only if its Authorization header is a Digest header with a lone double quote for a value. |
| `Answering.CalleeStatus` | SipDialog.cpp:134-306 | The answer's status within the command switch, or its absence, for every request that needs the callee. |
| `Answering.RequestAnswer` | SipDialog.cpp:75-317 | The status each request is answered with, or that it is not answered at all, from what the registry before it says about caller and callee; and that the call leaves by an exception exactly when it has to read credentials whose header text has a lone double quote for a value. |
| `Answering.AllowedAreHandled` | SipDialog.cpp:134-315 | Allow names exactly the methods an admitted caller does not get a 501 for, SUBSCRIBE apart, which gets a 200 and is not named. |
| `Answering.AnswersKeepKey` | SipDialog.cpp:101-106 | Every answer carries the key its request came with; every copy names its caller by the key of From's entry, and every answer as the request did. |
| `Contents.ForwardedContents` | SipDialog.cpp:156-306 | What a request is sent on as: its own command, body and headers, the callee's address for a request URI except in BYE and MESSAGE, the transport in the first word of Via and the sender's address (the server's for an INVITE without a port, none for BYE) behind it; a MESSAGE starts a new Via and keeps the length its sender gave (section 16.6 of RFC 3261). |
| `Contents.RequestUriResolves` | SipDialog.cpp:159-187 | The request URI of a copy that has the callee's resolves to the callee's key, at a server with right keys whose own update moves no entry to another domain. |
| `Contents.AnswersSay` | SipDialog.cpp:88-316 | Every answer to every request, header by header: From, Call-ID, CSeq and all others it does not write itself as in the request, To with a tag, Via with the port and the address the request came from, the length, the expiry of an update made, the challenge of a refusal, the capabilities of a 200 to OPTIONS, and no body (section 8.2.6.2 of RFC 3261). |
| `Contents.AnswersAreTagged` | SipDialog.cpp:90-91 | The To header of every answer has a tag. |
| `Contents.TagCycle` | SipDialog.cpp:17-29 | The tags run from 1 to 999999 and start over. |
| `Contents.TagsDiffer` | SipDialog.cpp:17-29 | No tag comes back among 999999 in a row. |
| `Parameters.WordAtFirst` | SipDialog.cpp:90-99 | A header parameter is found at the first place where its name is not part of a longer word. |
| `Parameters.ParameterRunsOn` | SipDialog.cpp:95-99 | A header parameter is read as its value if and only if nothing stands behind it; otherwise what is behind is read with it. |
| `Parameters.ParameterReplaced` | SipDialog.cpp:92 | Replacing a header parameter puts the new text in its place and keeps what stands around it. |
| `Parameters.ParameterAdded` | SipDialog.cpp:92 | Replacing one that is not there adds it. |
| `Parameters.AddedIsThere` | SipDialog.cpp:90-91 | A parameter that was added is found. |
| `Answering.RegisterKeepsFrom` | SipDialog.cpp:101-112 | A REGISTER still names its sender when the step is done. |
| `ConnectionIndex.IndexAgrees` | WSListener.cpp:64-112 | Over any sequence of handler calls both maps say what history says: which handles have an entry, which entries were made by an open, who was assigned a key last. |
| `ConnectionIndex.LookupAgreesWithHistory` | WSListener.cpp:95-105 | A lookup by key succeeds if and only if the handle last assigned that key has an entry, and the state carries that handle if and only if an open made the entry. |
| `ConnectionIndex.DisciplinedEntries` | WSListener.cpp:64-84 | When keys are assigned and states looked at only on open connections, a handle has an entry if and only if it is open, and that entry was made by its open. |
| `ConnectionIndex.OpenLookup` | WSListener.cpp:95-112 | Under the same discipline a lookup by key succeeds if and only if the handle last assigned it is open now, and returns the state opened with that handle, stale user entries notwithstanding. |
| `Delivery.SipSendsOnce` | SipServer.cpp:256-285 | One send through the socket listener, next listener included, attempts at most once, by the right transport, not marked before and marked after. |
| `Delivery.WsSendsOnce` | WSListener.cpp:206-242 | The same for the connection listener. |
| `Delivery.AtMostOnce` | SipServer.cpp:256-285 | However often one message object is sent through either listener, with sockets and connections opening and closing in between, it is handed to a transport at most once, and to the right kind. |
| `Delivery.ExactlyOnceWhenDeliverable` | WSListener.cpp:187-196 | From either listener a fresh message is handed to the one transport there is a way out by, its own socket or its own connection, once, and to none otherwise. |
| `Delivery.KeyedDelivery` | WSListener.cpp:231-235 | A message for a user key is handed over if and only if the connection last assigned that key is open, and then to that connection. |
| `Delivery.AnswerGoesBack` | WSListener.cpp:226-235 | An answer goes back over its open connection if and only if it carries no key or one last assigned to that connection. |
| `Listeners.WSListener.constructor` | WSListener.cpp:34-43 | A new listener has no connections. |
| `Listeners.WSListener.OnOpen` | WSListener.cpp:64-73 | Inserts a state for a new handle and keeps one that is there. |
| `Listeners.WSListener.OnClose` | WSListener.cpp:75-84 | Drops the handle's state and leaves the user map as it is. |
| `Listeners.WSListener.GetState` | WSListener.cpp:95-105 | The state found through both maps, or none. |
| `Listeners.WSListener.At` | WSListener.cpp:141 | Reading a handle through `operator[]` inserts a default state. |
| `Listeners.WSListener.SetStateKey` | WSListener.cpp:108-112 | Both maps after a key was assigned. |
| `Listeners.WSListener.SendMessage` | WSListener.cpp:206-242 | Marks, result, attempt and the states it may insert are those of the send on values. |
| `Listeners.SipServer.constructor` | SipServer.cpp:12-27 | Every socket slot starts closed. |
| `Listeners.SipServer.OpenSocket` | SipServer.cpp:60-88 | Only the UDP and TCP slots are ever opened, which keeps the slots of no transport and of WebSocket closed; a socket whose binding fails stays in its slot, so a second call succeeds. |
| `Listeners.SipServer.CloseSocket` | SipServer.cpp:90-96 | Exactly that slot is closed. |
| `Sockets.SlotsMove` | SipServer.cpp:60-96 | One slot of the server moves as the history of its calls describes. |
| `Sockets.OpenTwice` | SipServer.cpp:62-63 | A call whose binding fails reports failure, and the next call reports success with the same socket. |
| `Sockets.SlotHistory` | SipServer.cpp:60-96 | Over any calls a slot holds the socket of the first call to get one since it was last closed, bound or not. |
| `Sockets.SuccessMeansBound` | SipServer.cpp:62-87 | A reported success means a bound socket if and only if the call that obtained the socket had its binding succeed. |
| `Listeners.SipServer.SendMessage` | SipServer.cpp:256-285 | Marks, result and attempt, passed on to the next listener when the slot is closed. |
| `Listeners.ProcessResponse` | WSListener.cpp:176-196 | One turn of the response loop: key assignment, send here, send there. |
| `Listeners.ProcessResponses` | WSListener.cpp:174-198 | The response loop over both listeners, up to the first failure. |
| `Listeners.StoppedStays` | WSListener.cpp:187-195 | Once a response fails, nothing behind it is sent. |
| `Listeners.LoopTurn` | WSListener.cpp:174-198 | One turn of the loop on an open connection: the key assigned, the expected hand-over, and whether the loop goes on. |
| `Listeners.LoopAttempts` | WSListener.cpp:174-198 | The loop hands over every response up to the first that fails, in order, each to the transport it should go to and once, and nothing else; it comes to all of them if and only if every one passes. |
| `Listeners.SendResponses` | SipServer.cpp:237-248 | The response loop of the socket server, which a failure does not stop. |
| `Listeners.SendAllAttempts` | SipServer.cpp:237-248 | That loop hands over every response there is a way out for, in order, each to its own transport and once, and nothing else, and leaves the connection maps alone. |
| `EndToEnd.ChallengeReads` | SipDialog.cpp:427-436 | A challenge without commas in its parts reads back at the client as the parameters it was made from. |
| `EndToEnd.AnswerDecides` | SipDialog.cpp:441-464 | The answer to a challenge is granted when it was computed from the account's password, and otherwise only if MD5 collides on texts that are named. |
| `EndToEnd.ChallengeThenRegister` | SipDialog.cpp:206-219 | A whole registration across two messages: 401 and no visible change, a challenge that reads back, then 200 for the account's password and, if To is an account, a binding live exactly until its expiry; a 200 for another password means a collision of MD5. |
| `EndToEnd.BoundUntil` | SipDialog.cpp:44-63 | A granted update leaves To live exactly until its expiry, if To is an account, and never otherwise. |
| `EndToEnd.ConfirmedIsBound` | SipDialog.cpp:206-219 | A 200 to a REGISTER that asks for a binding means that To is live afterwards, at the sender's address, with the line, instance and tag it had, if and only if To is an account; single locations then stay live exactly until the expiry. |
| `EndToEnd.BoundHere` | SipDialog.cpp:49-63 | Every field of the binding a granted update writes: the sender's place, the expiry and the time, the sip scheme, and line, instance and tag as they were. |
| `EndToEnd.ConfirmationSays` | SipDialog.cpp:67-72 | The 200 to a REGISTER for an account says in its Expires header, whatever default it is read with, the expiry the request asked for, and holds no Authorization header; with single locations To is live exactly until now plus that number. |
| `EndToEnd.RefusalReads` | SipDialog.cpp:427-436 | The challenge of any 401, to any request, reads back as the nonce, the registry's domain for a realm, the server's address for a uri, the sender's user, and the hash of domain and nonce. |
| `Service.RepliesAreUnsent` | SipDialog.cpp:88-317 | Nothing a fresh message produces carries a mark of having been sent or a connection. |
| `Service.EachReplyOnce` | SipServer.cpp:224-249 | Everything a message from a socket produces is handed over in order, each message to its own transport exactly once, or not at all where there is no way out. |
| `Service.EachReplyOnceFromConnection` | WSListener.cpp:172-198 | The same for a message from a WebSocket connection, up to the first response that fails. |
| `Service.UserKeyIsFromKey` | WSListener.cpp:176-181 | The key a confirmed registration assigns to its connection is the registry key of the caller. |
| `Service.BareUserKey` | SipAddress.cpp:293-300 | A From header without colon and at sign is taken for the user of that key. |
| `Service.AnswersGoBack` | WSListener.cpp:172-198 | The answers to a request from an open connection go back over it if and only if the connection has no key, or is the last one its key was assigned to, be it by the answer itself. |
| `Service.CopyIsKeyed` | SipDialog.cpp:128-132 | A copy that goes out over WebSocket is fresh and carries the callee's registry key. |
| `Service.RelayIsKeyed` | SipDialog.cpp:403-417 | A relayed response that goes out over WebSocket is fresh and carries the registry key of the user From names. |
| `Service.CallReachesKeyed` | WSListener.cpp:231-235 | Such a copy is handed over if and only if the connection last assigned the callee's key is open, and then to that connection. |
| `Sessions.SpeakingIndex` | WSListener.cpp:172-198 | After a message from an open connection the connection maps differ by the sender's key assigned to it, if the message was a REGISTER that was granted, and not at all otherwise. |
| `Sessions.AlwaysAgree` | WSListener.cpp:64-112 | Over every joint life of registry and connections the maps, the history of handler calls and the acts themselves say the same. |
| `Sessions.RegistrationsDecide` | WSListener.cpp:176-181 | The connection last assigned a user's key is the one over which the user was last granted a REGISTER. |
| `Sessions.KeyedReachesRegistrant` | WSListener.cpp:174-196 | After any joint life a fresh WebSocket message for a user's key, sent by the socket listener or in a turn of the loop of any connection, is handed over if and only if the connection over which the user was last granted a REGISTER is open, and then to that connection. |
| `Sessions.KeyedReachesNobody` | WSListener.cpp:231-241 | Where the user was never granted a REGISTER over a connection, neither listener hands it over. |
| `Sessions.CallReachesRegistrant` | WSListener.cpp:174-196 | After any joint life, a call whose copy goes out over WebSocket, whether it came in over a socket or over a connection, is handed over if and only if the connection over which the callee was last granted a REGISTER is open, and then to that connection. |
| `Sessions.CallReachesNobody` | WSListener.cpp:231-241 | Where the callee was never granted a REGISTER over a connection, the copy goes nowhere. |
| `Sessions.RelayReachesRegistrant` | SipDialog.cpp:403-417 | The way back: a response relayed over WebSocket is handed over if and only if the connection over which the user From names was last granted a REGISTER is open, and then to that connection; without such a REGISTER it goes nowhere. |
| `Service.DoProcessMessage` | SipServer.cpp:224-249 | Dialog and socket response loop composed: new registry, counter, connection maps and attempts for one message from a socket. |
| `Service.SendReplies` | WSListener.cpp:172-198 | Dialog and WebSocket response loop composed for one request. |
| `Service.ProcessMessage` | WSListener.cpp:135-199 | The same for one message from a WebSocket connection, which takes the key of its connection. |

## Left out

* Sockets, select loops, threads, TLS, the HTTP control interface, command line, daemon, signal and logging code.  Messages
  are atomic steps; data races on the shared registry are not modelled.  The debug log in `SipRegistry::put` would purge
  the value at time zero.
* `SipMessage::parse` and `SipMessage::toString`: a message is the record they read and write, headers keyed by their short
  names.  `SipMessage::isExpired`, `isMessageFor`, `getViaPort` and `rmHeaderParameter` are not used by the core.
* `SipMessage` and `AuthParams` are values that the methods return changed, not objects changed in place, and the list of
  responses is returned appended.  The two bits of `sentCode` are a set of two marks.
* The JSON pairs of the control interface (`RegistryRequest`, `RegistryEntry`, `RegistryResponse`) and the JSON library; a
  JSON value is an abstract tree whose missing members read as defaults.  The bounds check of `asInt` is a wrap-around here.
* `SipRegistry::rmAddress`, `toRealm`, `exist`, `size`, reading and writing the database file: look-ups, a
  delete and file access, none of which a message passes through.
* `parseHex` of an empty or blank text never starts to extract and returns an uninitialised number (sipwsUtil.cpp:235-242);
  the model reads 0.
* `parseTime_t` formats an uninitialised time, so it is a function parameter.
* `Registered + Expire` is unbounded: sums beyond 64 bits do not wrap.
* `front()` of an empty string, read by `trimDoubleQuotes`, is taken to be the terminator it is in practice.
* Maps are visited in an arbitrary order instead of key order; nothing proved depends on it.
* `updateLocation` reads the expiry through a reference to a location it has just erased (SipDialog.cpp:70); the model uses
  the value written at SipDialog.cpp:50.
* `addrEquils` compares each argument with itself, so the loop test at SipDialog.cpp:414 is modelled by its port alone, and
  no claim is made about relaying back to the server's own address.
* The address that `processResponse` builds from To and drops (SipDialog.cpp:372-381): only the header reads remain.
* White space and letters are those of the C locale; characters are single bytes.
- RegistrarRuns.RunRefines: accounts come in with at most one location each; a stored entry with several is covered by Conservation, StepEffect and UnboundExactly, not by the one-binding abstraction.
- Contents.AnswersSay: messages the parser could not make out, which both listeners drop before the dialog sees them, are left out; so they are in Contents.ForwardedContents.
- DigestStandard.ResponsesBind: for users, realms, nonces and methods with a colon the fields can shift (ColonInUserShifts), so nothing is said about them.
- Contacts.ContactRoundTrip: for display names with an `@` behind a colon NameIsRead says whose user and host are read; the port and tag then read are not stated.
- Registry.SipRegistry.Put: gives the key a new object, where the C++ map assigns into the one it has; no reference into the map outlives a message, so none can notice.
- Routing.RequestRouting: assumes that resolving the empty name fails, which OPTIONS and responses rely on; so do Routing.CalleeFanout, Rebinding.CopyDestination and the lemmas of Hops, Chains, Service and Sessions.
- Chains.CountBoundsHops: from a negative count the chains stop short of the smallest int, where the C++ decrement is undefined; the model wraps there.
- Contacts.TransportRoundTrip: for other display names, users, hosts and tags a `proto` parameter may be found elsewhere in the text; what is then read is not stated.
- Sessions.CallReachesRegistrant: messages come over connections that are open, one at a time, and accounts stay in the registry's one domain.
- Listeners.LoopAttempts: for a connection that has a state, which processMessage sees to by looking it up first.
