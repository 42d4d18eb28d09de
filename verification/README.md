# WGRoster: verified models of the QR encoder and the roster

WGRoster is a web portal that hands out WireGuard configurations: users register machines, administrators
approve them, concentrators upload what they see and pull the peers they should expect. Every configuration is
also drawn as a QR code in the browser. This project models two parts of it in Dafny and proves what they keep.

**The QR encoder** (`Gf256`, `ReedSolomon`, `CodeDistance`, `CodewordBlocks`, `BchCodes`, `Utf8`, `SymbolPath`,
`Lzw`, `GifRaster`, `Base64` and the modules named `Qr…`) follows `qrcode-generator.js`, which implements ISO/IEC
18004:2015. Each stage is a method over arrays, sequences or fields,
as in the library, and its partner is a reader: Reed-Solomon tails make every syndrome vanish, interleaving is undone
by a de-interleaver, a zigzag reader recovers the codewords from the finished symbol, a segment reader recovers the
bytes, and a UTF-8 decoder the text. `QrPatterns` says module by module what the patterns of a version are, and each
drawing method is proved to draw those modules and no others; `QrCapacity` counts what they leave free, and
`QrTables.VersionFits` shows for all 40 versions and four levels that the library's own tables fill it but for at most
seven modules. `QrCode.Make` puts the readers together: from the finished modules alone, whose side and format bits
give version, level and mask, `QrCode.ReadSymbol` returns the text, for every text with paired surrogates that fits and
for every mask; `QrCode.BlockIsRepaired` says how many byte errors its blocks withstand. The GIF
compressor is read by a decoder that rebuilds its dictionary from the codes, the base64 encoder by the base64 decoder
of the same file.

A reader that undoes a writer does not say that the two follow the standard. So the finished symbol is also compared
with the standard written down once more: `QrFigures` has the probe, alignment and mask patterns as figures and the
zigzag as a rule, `QrWords` the listed format and version words at listed places, `QrStream` the data bytes in
hexadecimal digits, and `QrModules` says which bit each free module shows; `QrCode.Make` ends in all of them.
`Utf8Bits` and `Base64Text` do the same for the tables of RFC 3629 and RFC 4648.

**The roster** (`Status`, `Throughput`, `Routes`, `Roster`, `Portal`, `Orphans`, `Dormancy`, `StatusTable`,
`Ipam`, `Limiter`, `Configs` and the modules that state their effects) follows the Go packages `store`, `web`, `wg` and
`ipam`. `Roster` gives each handler and sweep a step on the tables, with the unique indexes and cascades of the schema,
and proves what every run keeps; `Portal.Server` is the imperative form, each of whose methods is proved to take its
step. The sweeps, the upload, the limiter and the status table are treated the same way: a class or a method with
loops, a specification function, and lemmas about all runs of it. What each request, sweep, upload and query comes to,
after any run, is then stated on the tables and logs alone: `RosterEffects` (who is expected where, and the exact
condition under which a request succeeds), `Offboarding`, `DormancySweep`, `StatusHistory`, `TrafficRates`,
`LimiterAnswers`; and of the generated texts, read back, in `ClientRoutes`, `HubRoutes` and `ConfigSettings`.

Three properties turned out to hold only under a condition, which is proved in both directions:

- The rate limiter keeps to burst + refill in every window, and its eviction of idle buckets is invisible, exactly
  when an hour of refill fills a bucket or the bucket never holds a whole token
  (`Limiter.BoundIffRefillsWithinHour`). The limiter of the portal (burst 10, 5 a minute) meets it.
- The GIF raster reads back whole exactly when the greedy parse of its pixels does not have eleven codes
  (`GifRaster.RasterReadsBackIff`): the compressor does not widen the end code for the entry a decoder still adds,
  which only then pushes it past the last byte. `GifRaster.EndCodeCanBeLost` names eleven pixels that lose it. Every
  image of more than 66 pixels reads back (`GifRaster.LargeRasterReadsBack`), and a symbol has at least 441 modules.
- Text survives the UTF-8 encoder exactly when its surrogates are paired (`Utf8.RoundTripIffWellFormed`).

Where code and documentation disagree the code is followed. The comment on the offboarding sweep asks for another
owner confirmed present in the same round; the code accepts any owner whose latest usable answer was present,
however old (`internal/web/maintenance.go:71-73` against `internal/web/maintenance.go:172-174`).
`Orphans.AbsencesAreCounted` proves the latter, `Orphans.ActsOnOldConfirmation` gives for every grace period a run
that acts on an owner in a round without a present answer, and `Orphans.SameRoundConfirmationIff` says when a round
has one: when some owner due for a question is answered present. The comment on the machine form speaks of one edit;
its two writes are not one transaction, so a form naming an endpoint that does not exist changes the key and nothing
else (`RosterEffects.AdminUpdateReplaces`).

Numbers are unbounded integers except where a width matters: field elements are `bv8`, bytes are below 256, and the
32-bit words of the base64 streams, shifted without being cleared, are reduced where they are read. Times are whole
seconds (in the limiter, minutes as reals).

`dafny verify dfyconfig.toml` checks the whole project.

## Model

| member | source | states |
|---|---|---|
| Gf256.LogExists | internal/web/static/qrcode-generator.js:1132-1160 | every nonzero field element is a power of alpha with an exponent below 255, so glog is total on them |
| Gf256.AlphaInjective | internal/web/static/qrcode-generator.js:1132-1149 | the exponent is unique: the order of alpha is exactly 255 |
| Gf256.QrMath.constructor | internal/web/static/qrcode-generator.js:1134-1149 | the two tables hold the powers of alpha and their logarithms |
| Gf256.QrMath.Gexp | internal/web/static/qrcode-generator.js:1162-1173 | for every integer exponent, negative ones included, the power of alpha |
| Gf256.QrMath.Product | internal/web/static/qrcode-generator.js:1153-1173 | adding logarithms multiplies in the field |
| ReedSolomon.GeneratorNonZero | internal/web/static/qrcode-generator.js:966-972 | no generator below degree 255 has a zero coefficient, so no logarithm of zero is taken |
| ReedSolomon.GeneratorRoots | internal/web/static/qrcode-generator.js:966-972 | the generator vanishes at alpha^0 … alpha^(n-1) |
| KnownGenerator.GeneratorOfSeven | internal/web/static/qrcode-generator.js:966-972 | the generator of degree seven, coefficient by coefficient as the standard lists it |
| ReedSolomon.GetErrorCorrectPolynomial | internal/web/static/qrcode-generator.js:966-972 | multiplying up the linear factors computes that generator |
| ReedSolomon.Multiply | internal/web/static/qrcode-generator.js:1210-1221 | the product of two polynomials, coefficient by coefficient |
| ReedSolomon.Mod | internal/web/static/qrcode-generator.js:1223-1243 | terminates, and leaves a remainder of smaller length with the same value at every root of the divisor |
| ReedSolomon.ErrorCorrection | internal/web/static/qrcode-generator.js:287-301 | data followed by the computed tail evaluates to zero at alpha^0 … alpha^(ec-1) |
| ReedSolomon.TailIsUnique | internal/web/static/qrcode-generator.js:287-301 | no other tail of that length does |
| CodeDistance.CodewordsApart | internal/web/static/qrcode-generator.js:287-301 | two different blocks that pass the reader's test differ in more places than there are error correction bytes |
| CodeDistance.HalfTheTailIsRepaired | internal/web/static/qrcode-generator.js:287-301 | so at most one such block is within half as many byte errors of whatever is read |
| CodewordBlocks.CreateBytes | internal/web/static/qrcode-generator.js:267-330 | the output is as long as the blocks together, and de-interleaving gives each block's data and a tail that makes it a codeword |
| CodewordBlocks.DeinterleaveInterleave | internal/web/static/qrcode-generator.js:311-329 | de-interleaving undoes interleaving, also for blocks of unequal lengths |
| CodewordBlocks.InterleaveSize | internal/web/static/qrcode-generator.js:311-329 | the interleaved sequence is as long as the blocks together |
| CodewordBlocks.EachByteOnce | internal/web/static/qrcode-generator.js:311-329 | every place of it holds exactly one byte of exactly one block |
| SymbolPath.PathIsComplete | internal/web/static/qrcode-generator.js:216-265 | for every odd symbol size the zigzag visits every module outside column 6 exactly once |
| SymbolPath.ReaderRecovers | internal/web/static/qrcode-generator.js:216-265 | a zigzag reader recovers the codewords whenever the free modules have room for them |
| QrSymbol.QrSymbol.MapData | internal/web/static/qrcode-generator.js:216-265 | the k-th null module on the path holds bit k under the mask, nothing else changes, and no module stays null once column 6 is full |
| QrSymbol.QrSymbol.SetupPositionProbePattern | internal/web/static/qrcode-generator.js:75-94 | what every module of the grid is afterwards |
| QrSymbol.QrSymbol.SetupTimingPattern | internal/web/static/qrcode-generator.js:116-131 | what every module of the grid is afterwards; only null ones change |
| QrSymbol.QrSymbol.SetupPositionAdjustPattern | internal/web/static/qrcode-generator.js:133-162 | on top of the probe patterns exactly the alignment patterns are drawn, each module in its colour, and nothing else changes |
| QrSymbol.QrSymbol.SetupTypeInfo | internal/web/static/qrcode-generator.js:179-214 | both copies of the format bits are drawn, and nothing outside their modules changes |
| QrSymbol.QrSymbol.SetupTypeNumber | internal/web/static/qrcode-generator.js:164-177 | both copies of the version bits are drawn, and nothing outside their modules changes |
| QrSymbol.QrSymbol.SetupPatterns | internal/web/static/qrcode-generator.js:57-66 | exactly the pattern modules of the version are drawn, and each pattern shows what it should |
| QrSymbol.QrSymbol.MakeImpl | internal/web/static/qrcode-generator.js:43-73 | every module is drawn, every pattern still shows what it should, and codewords that fit the free modules are readable from them |
| QrCapacity.FreeModulesAre | internal/web/static/qrcode-generator.js:43-73 | how many modules the patterns leave free, in terms of the side and the number of rows of alignment patterns |
| QrTables.GetRsBlocks | internal/web/static/qrcode-generator.js:1526-1552 | the two loops expand the row of a version and level |
| QrTables.VersionFits | internal/web/static/qrcode-generator.js:863-904 | for every version and level the codewords fill the free modules but for at most seven, alignment patterns keep clear of the others, and the length field can hold the data bytes |
| QrLevels.StrongerHoldsLess | internal/web/static/qrcode-generator.js:1253-1501 | in every version level L leaves the most room for data, then M, Q and H |
| QrLevels.ShorterBlocksFirst | internal/web/static/qrcode-generator.js:1526-1552 | the blocks of a symbol have as many correction bytes each, and the shorter ones come first |
| QrLevels.KnownBlocks | internal/web/static/qrcode-generator.js:1253-1501 | version 5, level Q, block by block |
| BchCodes.GetBchTypeInfo | internal/web/static/qrcode-generator.js:911-926 | the loop ends, and leaves the data followed by its remainder, under the mask |
| BchCodes.GetBchTypeNumber | internal/web/static/qrcode-generator.js:928-934 | the same for the version |
| BchCodes.FormatWordIsMultiple | internal/web/static/qrcode-generator.js:920-926 | behind given data that remainder, and no other, makes the word a multiple of the generator |
| BchCodes.VersionWordIsMultiple | internal/web/static/qrcode-generator.js:928-934 | the same for the version |
| BchCodes.FormatWordsApart | internal/web/static/qrcode-generator.js:920-926 | different format words differ in at least seven modules |
| BchCodes.VersionWordsApart | internal/web/static/qrcode-generator.js:928-934 | different version words differ in at least eight |
| BchCodes.ThreeErrorsAreTold | internal/web/static/qrcode-generator.js:920-926 | with up to three modules misread the format is still the only one as close |
| BchCodes.ThreeVersionErrorsAreTold | internal/web/static/qrcode-generator.js:928-934 | the same for the version |
| QrFormat.FormatReads | internal/web/static/qrcode-generator.js:179-214 | level and mask read back from either copy of the format bits, at the places listed |
| QrFormat.VersionReads | internal/web/static/qrcode-generator.js:164-177 | the version reads back from either copy of the version bits, at the places listed |
| QrWords.FormatIsListed | internal/web/static/qrcode-generator.js:911-926 | the bits drawn for a level and a mask are those of the word the standard lists |
| QrWords.VersionIsListed | internal/web/static/qrcode-generator.js:928-934 | the bits drawn for a version are those of the word the standard lists |
| QrFigures.FiguresShown | internal/web/static/qrcode-generator.js:75-162 | module by module, the drawn patterns are the figures of the standard, with timing lines and dark module |
| QrFigures.MaskIsTile | internal/web/static/qrcode-generator.js:940-963 | each mask formula repeats its figure |
| QrFigures.ZigzagByRule | internal/web/static/qrcode-generator.js:216-265 | each module of the path follows the one before by the rule of the standard |
| QrModules.CarriedIsShown | internal/web/static/qrcode-generator.js:216-265 | each free module shows its bit of the codewords, most significant first, turned over where the mask figure is dark |
| QrSymbol.PlacedFillsAll | internal/web/static/qrcode-generator.js:216-265 | column 6 is the only place where the walk could leave a module null |
| QrData.BitBuffer.Put | internal/web/static/qrcode-generator.js:1576-1597 | appends the bits of the number, most significant first, and keeps all bits before |
| QrData.BuildStream | internal/web/static/qrcode-generator.js:332-383 | fails exactly when the payload is too long; else the payload and its padding fill the data bytes exactly |
| QrStream.StreamIsStandard | internal/web/static/qrcode-generator.js:332-383 | the padded stream of a segment, byte for byte: mode 4, length, bytes and terminator in hexadecimal digits, then EC and 11 in turn |
| QrData.StreamReadsBack | internal/web/static/qrcode-generator.js:332-383 | mode, length and bytes read back from any padded stream are the segments written |
| QrData.ChooseTypeNumber | internal/web/static/qrcode-generator.js:424-450 | the least version below 40 that fits, else 40 |
| QrCode.FitsIff | internal/web/static/qrcode-generator.js:424-450 | a text fits a version exactly if its bytes and two more, or three from version 10 on, are no more than the data bytes |
| QrCode.CreateData | internal/web/static/qrcode-generator.js:332-383 | from the codewords alone a reader recovers the segments, each block of them is a Reed-Solomon codeword, the data bytes are those of the standard, and an overflow is reported exactly when they do not fit |
| QrCode.FieldIsNumber | internal/web/static/qrcode-generator.js:267-330 | the bytes a reader takes from the codewords are the values of the field elements |
| QrCode.BlockIsRepaired | internal/web/static/qrcode-generator.js:1253-1501 | in every block of every version and level byte errors up to half the error correction bytes leave one block to choose |
| QrCode.Make | internal/web/static/qrcode-generator.js:424-453 | a full symbol of the least fitting version: figures, listed words, codewords with the data bytes of the standard shown module by module, and a text a reader gets from the modules alone |
| Utf8.ToUtf8Array | internal/web/static/qrcode-generator.js:2252-2285 | the bytes of section 3 of RFC 3629, with surrogate pairs joined |
| Utf8.RoundTripIffWellFormed | internal/web/static/qrcode-generator.js:2252-2285 | decoding gives the text back if and only if its surrogates are paired |
| Utf8Bits.OneOctet | internal/web/static/qrcode-generator.js:2252-2285 | one byte as the table of RFC 3629 shows its bits |
| Utf8Bits.TwoOctets | internal/web/static/qrcode-generator.js:2252-2285 | two bytes as the table of RFC 3629 shows their bits |
| Utf8Bits.ThreeOctets | internal/web/static/qrcode-generator.js:2252-2285 | three bytes likewise |
| Utf8Bits.FourOctets | internal/web/static/qrcode-generator.js:2252-2285 | a surrogate pair as the four bytes of the character it stands for |
| Utf8Bits.UnitByUnit | internal/web/static/qrcode-generator.js:2252-2285 | units are encoded one by one, surrogates with the unit after them |
| Utf8Bits.KnownEncoding | internal/web/static/qrcode-generator.js:2252-2285 | the first example of section 7 of RFC 3629 |
| GifRaster.GetLzwRaster | internal/web/static/qrcode-generator.js:2127-2187 | the raster is the greedy parse of the pixels, packed with clear and end code, and reads back whole exactly when the parse does not have eleven codes |
| Lzw.WidthBounds | internal/web/static/qrcode-generator.js:2164-2173 | the width grows by one exactly when the table outgrows it, and never beyond 12 |
| Lzw.AddedIs | internal/web/static/qrcode-generator.js:2164-2173 | the table grows by the pending string with the next pixel, up to 4095 strings |
| Lzw.BitOutputStream.Write | internal/web/static/qrcode-generator.js:2100-2116 | appends the bits of the code, least significant first |
| GifRaster.RasterReadsBackIff | internal/web/static/qrcode-generator.js:2127-2187 | the same of any such raster: the pixels before the call decide |
| GifRaster.LostOnlyAfterEleven | internal/web/static/qrcode-generator.js:2164-2184 | after any other number of codes the end code has its width or padding behind it |
| GifRaster.LargeRasterReadsBack | internal/web/static/qrcode-generator.js:2127-2187 | every image of more than 66 pixels reads back |
| GifRaster.EndCodeCanBeLost | internal/web/static/qrcode-generator.js:2179-2184 | eleven given pixels have eleven codes, and their raster does not read back |
| GifRaster.KnownRaster | internal/web/static/qrcode-generator.js:2127-2187 | the raster of one black pixel is 44 01 |
| Base64.EncodeOutputStream.WriteByte | internal/web/static/qrcode-generator.js:1909-1919 | characters and pending bits make up the bytes written |
| Base64.EncodeOutputStream.Flush | internal/web/static/qrcode-generator.js:1921-1936 | the text encodes exactly the bytes written, padding included |
| Base64.DecodeInputStream.ReadByte | internal/web/static/qrcode-generator.js:1958-2006 | one call is one step of the reading function |
| Base64.DecodeReturnsBytes | internal/web/static/qrcode-generator.js:1949-2006 | reading an encoded text gives byte i at call i and then the end, in all three padding cases |
| Base64.DecodeStops | internal/web/static/qrcode-generator.js:1958-2006 | behind the data the reader reports the end at padding or after whole groups, and an error for an open group or a foreign character |
| Base64Text.EncodedIsStandard | internal/web/static/qrcode-generator.js:1879-1942 | the encoded text is, letter for letter, that of section 4 of RFC 4648, and no other |
| Base64Text.SpaceIsPassedOver | internal/web/static/qrcode-generator.js:1975-1978 | a space, tab or line end anywhere changes nothing that is read |
| Limiter.Limiter.AllowNow | internal/web/middleware.go:161-186 | one call is one step of the limiter, sweep included |
| Limiter.BoundIffRefillsWithinHour | internal/web/middleware.go:141-186 | the window bound holds over all runs, and eviction changes no answer, if and only if an hour refills a bucket or no bucket ever holds a token |
| Limiter.NeverEvictingIsBounded | internal/web/middleware.go:176-186 | without eviction the bound holds for every burst and rate |
| LimiterAnswers.RefusedForAWindow | internal/web/middleware.go:161-186 | a call is refused only if some window ending at it would otherwise hold more than burst and refill |
| LimiterAnswers.ExactIffRefillsWithinHour | internal/web/middleware.go:141-186 | and every such call is refused, for all runs, without eviction always and with it exactly under the same condition |
| LimiterAnswers.BucketsAreRecent | internal/web/middleware.go:165-172 | every key called within the hour has its bucket, and none not called for seventy minutes is kept |
| LimiterAnswers.SweepsAreApart | internal/web/middleware.go:165-172 | sweeps are more than ten minutes apart |
| Ipam.Validate | internal/ipam/ipam.go:38-58 | the verdict for every address, in the order of the checks |
| Ipam.UsableIff | internal/ipam/ipam.go:38-73 | accepted exactly between network and broadcast address, and not in use |
| Ipam.VerdictIs | internal/ipam/ipam.go:38-58 | each refusal by where the address lies in the prefix |
| Ipam.NextFree | internal/ipam/ipam.go:77-97 | the lowest address Validate accepts, failing exactly when there is none, after at most one address more than are used |
| Routes.OverlapsIffShared | internal/wg/allowed.go:61-70 | two prefixes overlap exactly when some address lies in both |
| Routes.ParsedCovers | internal/wg/allowed.go:19-40 | the parsed list covers an address exactly when the written list does; masking host bits changes nothing |
| Routes.HostIsWhole | internal/wg/allowed.go:19-40 | a bare address is the prefix of all its 32 or 128 bits |
| Routes.ParseAllowedIPs | internal/wg/allowed.go:19-40 | the prefixes of all parts, or an error for a malformed part |
| Routes.Overlap | internal/wg/allowed.go:61-70 | finds an overlapping pair exactly when the two lists share an address |
| Roster.StepKeepsInv | internal/store/store.go:33-82 | every step keeps keys, addresses and links consistent, routes disjoint, addresses usable and active keys vetted |
| RosterEffects.DisableTakesOut | internal/web/admin_handlers.go:547-568 | after any run a disabled machine is on no endpoint's list; its other fields, the other rows and the endpoints stay |
| RosterEffects.DisabledStaysOut | internal/store/machines.go:145-153 | and no endpoint expects it before an administrator acts again |
| RosterEffects.DisableThenEnable | internal/web/admin_handlers.go:547-604 | disabling and enabling leaves a machine with address and links expected at exactly its endpoints |
| RosterEffects.EnablePutsBack | internal/web/admin_handlers.go:571-604 | enabling succeeds exactly for a disabled machine with an address and a link |
| RosterEffects.AddJoinsTheQueue | internal/web/machine_handlers.go:93-129 | exactly below the cap and with an unused key a pending row appears; otherwise nothing changes |
| RosterEffects.EnrollJoinsTheQueue | internal/web/enroll_handler.go:32-91 | the exact condition under which a pending row with the lowest unused address and the configured endpoint appears |
| RosterEffects.OwnEditTakesEffect | internal/store/machines.go:72-99 | exactly with a key nobody else has the row changes, and a machine that was not pending goes back to the queue with its new key |
| RosterEffects.DeleteRemoves | internal/store/machines.go:221-224 | the row goes, and nothing else |
| RosterEffects.ExpiryRemoves | internal/store/machines.go:115-132 | exactly the machines pending since before the cutoff go |
| RosterEffects.AdminCreatePutsInService | internal/web/admin_handlers.go:414-466 | the exact condition under which a new machine is expected at exactly the endpoints of the form, and what a failed approval leaves |
| RosterEffects.AdminUpdateReplaces | internal/web/admin_handlers.go:469-542 | the same for an edit: a disabled machine stays out, and a form naming no endpoint leaves the new key alone |
| RosterEffects.AdoptPutsInService | internal/web/peer_handler.go:200-244 | the exact condition under which a reported peer becomes a machine expected at that endpoint alone |
| RosterEffects.LinkAddsEndpoint | internal/web/peer_handler.go:250-296 | the exact condition under which a reported machine is expected there as well as where it was linked |
| RosterEffects.LinkNeedsMachine | internal/web/peer_handler.go:255-259 | a reported key no machine has is linked to nothing |
| RosterEffects.CreateEndpointAdds | internal/web/admin_handlers.go:663-681 | exactly with an unused name and key an endpoint appears |
| RosterEffects.UpdateEndpointReplaces | internal/web/admin_handlers.go:683-716 | exactly if no machine then has an address routed twice the endpoint changes |
| RosterEffects.DeleteEndpointUnlinks | internal/web/admin_handlers.go:766-782 | the links to the endpoint go, in their order the others stay, and nobody is expected elsewhere than before |
| Roster.LinksShareNoAddress | internal/web/admin_handlers.go:844-917 | in no reachable state do the lists of two endpoints of one machine cover the same address |
| ClientRoutes.NoAddressRoutedTwice | internal/wg/config.go:16-60 | read back line by line, the client config of any machine in any reachable state names each endpoint's key, and no address is in the AllowedIPs of two of its peers |
| HubRoutes.ConcentratorRoutesEachOnce | internal/wg/config.go:67-100 | in any reachable state a concentrator's config, read back, routes each expected machine's address and no other to it, and no address to two peers |
| HubRoutes.WgRoutesEachOnce | internal/web/api_handlers.go:98-122 | the same of the peer sections of expected-peers |
| HubRoutes.TsvRoutesEachOnce | internal/web/api_handlers.go:98-132 | the same of the tab-separated form |
| Roster.ExpectedPeersAreVetted | internal/store/machines.go:369-373 | in every reachable state an expected peer has the key of the latest administrator act and a usable address nobody shares |
| Roster.KeyChangeNeedsReview | internal/store/machines.go:72-99 | after an owner changes the key the machine is out of service until an administrator acts |
| Roster.RequeuedGetsFullWindow | internal/store/machines.go:115-132 | a machine sent back for review survives every expiry with a cutoff up to that moment |
| Roster.EnrolmentSucceedsIff | internal/web/enroll_handler.go:50-91 | enrolment registers the lowest free address exactly when the key is new and an address is free; fewer used than usable addresses suffice |
| Roster.ListedTwice | internal/web/admin_handlers.go:851-889 | an endpoint listed twice is refused as a clash with itself |
| Portal.ConflictAmong | internal/web/admin_handlers.go:851-889 | reports a conflict exactly when two listed endpoints route a common address |
| Portal.EndpointEditConflict | internal/web/admin_handlers.go:894-917 | reports a conflict exactly when the edit would make some machine's links clash |
| Portal.CheckAddress | internal/web/admin_handlers.go:506-517 | accepts exactly assignable addresses nobody else holds |
| Portal.Server.HandleAddMachine | internal/web/machine_handlers.go:93-129 | takes the roster step, the pending cap included |
| Portal.Server.HandleEditMachine | internal/web/machine_handlers.go:191-230 | takes the roster step |
| Portal.Server.HandleDeleteMachine | internal/web/machine_handlers.go:232-254 | takes the roster step |
| Portal.Server.HandleEnroll | internal/web/enroll_handler.go:32-91 | takes the roster step |
| Portal.Server.HandleAdminCreateMachine | internal/web/admin_handlers.go:414-466 | takes the roster step |
| Portal.Server.HandleUpdateMachine | internal/web/admin_handlers.go:469-542 | takes the roster step |
| Portal.Server.HandleDisableMachine | internal/web/admin_handlers.go:547-568 | takes the roster step |
| Portal.Server.HandleEnableMachine | internal/web/admin_handlers.go:571-604 | takes the roster step |
| Portal.Server.HandleCreateEndpoint | internal/web/admin_handlers.go:663-681 | takes the roster step |
| Portal.Server.HandleUpdateEndpoint | internal/web/admin_handlers.go:683-716 | takes the roster step |
| Portal.Server.HandleDeleteEndpoint | internal/web/admin_handlers.go:766-782 | takes the roster step, links cascading |
| Portal.Server.HandleAdoptPeer | internal/web/peer_handler.go:200-244 | takes the roster step |
| Portal.Server.HandleLinkPeer | internal/web/peer_handler.go:250-296 | takes the roster step |
| Portal.Server.DeleteExpiredPending | internal/store/machines.go:122-132 | takes the roster step |
| Status.Store.ReplaceStatus | internal/store/status.go:11-99 | accepts exactly reports without a repeated key, replaces rows, last_seen, history and report time, and changes nothing otherwise |
| Status.RowsSumUpReports | internal/store/status.go:18-77 | after any run the rows are the last report's keys, each with the largest handshake and the last non-empty remote endpoint of the unbroken run of reports carrying it |
| Status.LastSeenIsLatestEver | internal/store/status.go:64-77 | after any run last_seen is the largest handshake any accepted report ever carried for the key |
| Status.LastSeenGrows | internal/store/status.go:64-77 | last_seen never decreases and covers every stored handshake |
| Status.HistoryIsWindow | internal/store/status.go:86-102 | the history is the samples of all accepted reports of the last fourteen days |
| StatusHistory.ReportTimeIsLast | internal/store/status.go:78-83 | an endpoint's report time is that of its last report that went through |
| StatusHistory.EveryEntryLeavesASample | internal/store/status.go:86-102 | every entry of every such report of the last fourteen days, and nothing else, has a sample with its own counters |
| Throughput.EndpointThroughput | internal/store/status.go:106-175 | the clamped rates of exactly the keys in both of the two latest reports |
| Throughput.TrafficByKey | internal/store/status.go:202-256 | the rates of every key over its neighbouring samples, and only keys with an interval |
| TrafficRates.TrafficIsPerSecond | internal/store/status.go:202-256 | for every key the series, oldest first, and the latest rates in whole bytes a second between its samples; a reset counts as nothing |
| TrafficRates.SeriesAccountsForGrowth | internal/store/status.go:228-252 | the series returned never claims more than the growth, and falls short by less than a byte a second each way |
| Throughput.OneIntervalAgrees | internal/store/status.go:106-256 | over two reports both computations give the same keys and rates |
| Throughput.HistoryHasOneSampleEach | internal/store/status.go:86-98 | uploads a second apart leave one sample per key and time, as that agreement needs |
| Throughput.RatesAccountForGrowth | internal/store/status.go:228-252 | for counters that never decrease, rates never claim more than the growth and fall short by less than a byte a second each way |
| Throughput.WindowAccountsForGrowth | internal/store/status.go:202-256 | the same over a window of any number of intervals of the stored history |
| Orphans.OrphanDecision | internal/web/maintenance.go:163-190 | the owners out of grace, or none without a confirmed owner or with a majority |
| Orphans.Sweeper.SweepOrphans | internal/web/maintenance.go:74-142 | one sweep is one step: refresh, decide, act, prune |
| Orphans.AskedKeepsInv | internal/store/owners.go:83-110 | after any answer every row still says what the log of answers says: its misses are the absences since the last present answer, a day apart at least, and it is flagged exactly when the owner was acted on since |
| Orphans.AbsencesAreCounted | internal/web/maintenance.go:74-190 | in every run misses count the absences since the last present answer, a day apart at least, and every action was justified by the answers before it |
| Orphans.SameRoundConfirmationIff | internal/web/maintenance.go:84-110 | a round confirms somebody exactly when an owner due for a question is answered present |
| Orphans.ActsOnOldConfirmation | internal/web/maintenance.go:70-73 | for every grace period some run acts on an owner in a round that confirms nobody |
| Offboarding.NobodyOutOfGraceIsLeft | internal/web/maintenance.go:163-189 | after a round that may act every owner absent for the grace period has been acted on |
| Offboarding.AsksWhoIsDue | internal/web/maintenance.go:84-110 | a sweep asks exactly the owners without a row or with an answer a day old |
| Offboarding.MachinesOfThoseActedOn | internal/web/maintenance.go:195-217 | the machines a sweep changes are the active ones of the owners the log says it acted on, all of them |
| Offboarding.PrunedWhenActing | internal/web/maintenance.go:118-142 | the row of a user without machines goes in exactly the rounds that may act and have an owner out of grace |
| Orphans.SweepTouchesOnlyOrphans | internal/web/maintenance.go:195-217 | exactly the active machines of owners acted on are disabled, and only when so configured |
| Dormancy.DormantDecision | internal/web/maintenance.go:330-356 | the silent active machines, or none without fresh evidence or with a majority |
| Dormancy.Sweeper.HasFreshReport | internal/web/maintenance.go:296-312 | true exactly when some endpoint reported within the hour |
| Dormancy.Sweeper.SweepDormant | internal/web/maintenance.go:252-292 | one sweep is one step: clear, decide on the list read before, act |
| DormancySweep.SweepRowByRow | internal/web/maintenance.go:252-386 | what becomes of each row: announced and disabled, cleared, or left, in terms of its fields and the report times |
| DormancySweep.DisabledWereSilent | internal/web/maintenance.go:340 | a machine a sweep disables was active and unannounced, with no handshake, or else approval, or else creation since the cutoff |
| Dormancy.SweepDisablesAtMostHalf | internal/web/maintenance.go:330-386 | a sweep disables at most half of the active machines, and only silent ones |
| Dormancy.OneStaysActive | internal/web/maintenance.go:252-386 | over any run of sweeps and reports one machine stays active |
| Dormancy.AnnouncementsAlternate | internal/web/maintenance.go:262-292 | over any run, handlers included, each machine's announcements and resolutions strictly alternate |
| StatusTable.BuildStatus | internal/web/status_handlers.go:115-201 | one row for each expected or reported key; the counts partition expected machines and unexpected peers |
| StatusTable.PeerDetail | internal/web/peer_handler.go:80-144 | the drawer's own classification comes to the same |
| StatusTable.DrawerAgreesWithTable | internal/web/peer_handler.go:80-144 | the drawer answers exactly for the table's keys, with the same state and mismatch flag |
| StatusTable.RowSays | internal/web/status_handlers.go:115-201 | each state and the mismatch flag in terms of machine, links, report and the three minutes |
| StatusTable.AllowedCovers | internal/web/helpers.go:19-40 | true exactly when some part of the list contains the address |
| Configs.ConcentratorConfig | internal/wg/config.go:67-100 | the text, line by line |
| Configs.ConcentratorConfigReads | internal/wg/config.go:67-114 | for arbitrary labels a line reader gets every machine's key and address back, in order |
| Configs.ExpectedPeersWgReads | internal/web/api_handlers.go:113-122 | the same for the peer sections of expected-peers |
| Configs.ExpectedPeersTsvReads | internal/web/api_handlers.go:123-132 | the same for the tab-separated form |
| Configs.ExpectedPeersWg | internal/web/api_handlers.go:113-122 | the peer sections, line by line |
| Configs.ExpectedPeersTsv | internal/web/api_handlers.go:123-132 | the tab-separated lines |
| Configs.ClientConfig | internal/wg/config.go:16-60 | the client's text, line by line |
| Configs.ClientConfigReads | internal/wg/config.go:16-60 | a reader of the client config gets every endpoint's key and AllowedIPs, with the default for an empty list |
| ConfigSettings.ClientSettingsRead | internal/wg/config.go:16-60 | every setting of a client config reads back, DNS and MTU as those of the first endpoint that has one |
| ConfigSettings.HubSettingsRead | internal/wg/config.go:67-100 | every setting of a concentrator's config reads back |
| ConfigSettings.LabelIsPrintable | internal/wg/config.go:107-114 | codes below 32 and from 127 to 159 become spaces, and no other character changes |
| Configs.SanitizeComment | internal/wg/config.go:107-114 | no control character remains, and no other character changes |

## Left out

- The mask penalty score: the mask is a parameter, and the results hold for each of the eight. A version other than the automatic one is not modelled.
- Numeric, alphanumeric and Kanji segments, and the SVG, ASCII, table and canvas output of the QR library.
- `createStringToBytes`, the GIF header and colour table, and the byte blocks the raster is split into.
- Text of addresses and prefixes: `Routes` and `Ipam` start from parsed values, and `ClientRoutes` and `HubRoutes` take the parser of a list and the text of an address as parameters; IPv6 pools are not modelled.
- HTTP, sessions, CSRF, templates, audit log, profiles, GeoIP, DNS, webhooks and metrics. Form checks of names and keys are one flag of each request.
- LDAP is an arbitrary present, absent or unknown answer; SQL is map operations with the schema's constraints, and query results are inputs constrained by what the query promises.
- Interleavings inside one handler: each runs as one step, as the single database connection makes it for the writes.
- Failing writes inside the sweeps.
- Floating point in the limiter: tokens and minutes are reals.
- 64-bit overflow of transfer counters.
- The throughput sparkline of an endpoint and the series of the peer drawer, which repeat the arithmetic of `Throughput.TrafficByKey`.
- GifRaster.GetLzwRaster: only for the minimum code size of two bits, the one the library uses.
