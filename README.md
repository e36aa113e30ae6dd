# Guardian: a verified model of the filtering core

Guardian is a Windows desktop tool that points the system proxy at a local HTTP/1.1 forward
proxy (port 8888) and refuses requests whose domain is on a block list. This project models its
filtering core in Dafny and proves properties of it:

- **MurmurHash3** (`MurmurHash3.dfy`): the 32-bit x86 MurmurHash3 on bytes. There is a reference
  definition in stages (the body blocks, the tail and the final avalanche) and the imperative
  method of the original, proved equal to it. Published reference vectors are proved about it.
- **CuckooFilter** (`CuckooFilter.dfy`, `BitOps.dfy`): a class over an array of bucket arrays,
  with a ghost `Contents` view. The model covers:
  - the constructor's argument checks and its power-of-two bucket count;
  - fingerprints and the two candidate buckets;
  - TryInsert, TryDelete, Contains, Remove and Clear;
  - Add, with its random kick-out loop. The two random choices are nondeterministic choices.

  What is proved: a stored item stays reported across later successful Adds; a failed Add keeps
  the count of occupied slots but may drop one earlier fingerprint (which one depends on the
  random kicks); and the count goes up by exactly one per successful Add.
- **DomainFilter** (`DomainFilter.dfy`): the URL-to-domain parsing, the label count, and the
  domain suffixes probed from the top-level label inward. The class wraps a cuckoo filter keyed
  by UTF-16 bytes and offers Load, Clear and Contains. `Contains` is proved equal to a verdict
  over the set of listed strings.
- **BlocklistFilter** (`BlocklistFilter.dfy`): the wildcard (`*.domain`) suffix trie. It is
  modelled as the prefix-closed map from label paths to the node's blocking flag. Proved: loading
  a list blocks exactly the paths that extend a stored entry, and a stored entry blocks all its
  subdomains.
- **ProxyServer** (`ProxyServer.dfy`, `ProxyHandlers.dfy`, `Int32Text.dfy`, `Text.dfy`):
  - request recognition by method name;
  - request-line parsing;
  - the filter gate and the CONNECT/HTTP dispatch;
  - the rewrite of a plain HTTP request (request line replaced, headers and body kept);
  - `host:port` parsing, including the `int.Parse` rules for the port;
  - the server's Stop/Dispose life cycle.
- **MainViewModel** (`MainViewModel.dfy`): the six domain filters, the request counters and the
  UrlFiltered events. Proved:
  - UrlFilter's decision: the whitelist wins, and otherwise any block list blocks;
  - the counters count the events;
  - a category that is switched off reports nothing;
  - the proxy runs exactly while protection is on.

C# `char` (a UTF-16 code unit) is a Dafny `char`, which is a Unicode scalar value; the two
agree on every code unit that is not a surrogate (see "## Left out"). Bytes are `0..255`. `uint`
arithmetic in the hash is `bv32`. Thrown exceptions are `Err` values of a `Result`.

## Model

| member | source | states |
|---|---|---|
| MurmurHash3.Hash128Bit32 | src/Guardian/Algorithm/MurmurHash3.cs:7-59 | The block loop, the fall-through tail switch and the finalization compute exactly the staged reference hash `Hash(data, seed)` |
| MurmurHash3.MixTail | src/Guardian/Algorithm/MurmurHash3.cs:32-52 | The tail switch mixes the last `length & 3` bytes into the state as `Tail` does, and leaves it alone when there are none |
| MurmurHash3.PackTail | src/Guardian/Algorithm/MurmurHash3.cs:36-45 | The fall-through cases pack the 1 to 3 tail bytes little-endian into `k2` |
| MurmurHash3.RotateLeftIsRotation | src/Guardian/Algorithm/MurmurHash3.cs:62 | The shift-or RotateLeft by 13 and by 15 is a true 32-bit rotation |
| MurmurHash3.GetBlockBytes | src/Guardian/Algorithm/MurmurHash3.cs:65 | A block is the four bytes at i read little-endian: byte i lowest, byte i+3 highest |
| MurmurHash3.TailWordBytes | src/Guardian/Algorithm/MurmurHash3.cs:36-45 | The packed tail word holds tail byte j at bits 8j..8j+7 and zero above the last tail byte |
| MurmurHash3.TailPacking | src/Guardian/Algorithm/MurmurHash3.cs:38-45 | The xor-and-shift steps of cases 3, 2, 1 produce the little-endian tail word |
| MurmurHash3.BlocksReadOnlyBlocks | src/Guardian/Algorithm/MurmurHash3.cs:18-30 | The body loop depends only on the bytes of the whole blocks it reads |
| MurmurHash3.HashOfEmpty | src/Guardian/Algorithm/MurmurHash3.cs:55-58 | The empty input hashes to the avalanche of the seed |
| MurmurHash3.WholeBlocksHaveNoTail | src/Guardian/Algorithm/MurmurHash3.cs:36-52 | When the length is a multiple of four the tail switch changes nothing |
| MurmurHash3.ReferenceVectorsEmpty | src/Guardian/Algorithm/MurmurHash3.cs:7-59 | The published MurmurHash3_x86_32 values for the empty input under seeds 0, 1 and 0xffffffff |
| MurmurHash3.ReferenceVectorsTail | src/Guardian/Algorithm/MurmurHash3.cs:32-52 | The published values for one-, two- and three-byte inputs (every tail case) |
| MurmurHash3.ReferenceVectorsBlock | src/Guardian/Algorithm/MurmurHash3.cs:17-30 | The published values for four-byte inputs (one body block, no tail) |
| BitOps.LowBitsIsMod | src/Guardian/Algorithm/CuckooFilter.cs:152 | Masking with a power of two minus one keeps the remainder modulo that power of two |
| BitOps.XorMaskedInvolution | src/Guardian/Algorithm/CuckooFilter.cs:161 | Xoring the same value twice under the bucket mask returns the masked start |
| Cuckoo.EmptyBucketsUnoccupied | src/Guardian/Algorithm/CuckooFilter.cs:33-37 | Freshly allocated (all zero) buckets hold no fingerprint |
| Cuckoo.InsertOccupiesOne | src/Guardian/Algorithm/CuckooFilter.cs:94-107 | Writing a nonzero fingerprint into a bucket's first empty slot adds exactly one occupied slot |
| Cuckoo.DeleteFreesOne | src/Guardian/Algorithm/CuckooFilter.cs:124-137 | Zeroing the first slot holding a nonzero fingerprint frees exactly one slot |
| Cuckoo.SwapKeepsCount | src/Guardian/Algorithm/CuckooFilter.cs:55 | Swapping a fingerprint into an occupied slot leaves the number of occupied slots unchanged |
| Cuckoo.FingerprintOf | src/Guardian/Algorithm/CuckooFilter.cs:140-146 | A fingerprint is never 0 (the empty-slot marker) and never exceeds the mask |
| Cuckoo.TruncDiv | src/Guardian/Algorithm/CuckooFilter.cs:28 | C#'s division truncates toward zero: the remainder is smaller than the divisor in magnitude and is zero or has the dividend's sign; it agrees with Euclidean division on non-negative operands, and int.MinValue / -1 is excluded because it throws |
| Cuckoo.BucketTarget | src/Guardian/Algorithm/CuckooFilter.cs:28 | Math.Max(1, capacity / bucketSize): at least one, else the quotient; defined wherever the division does not throw |
| Cuckoo.CuckooFilter.ComputeFingerprint | src/Guardian/Algorithm/CuckooFilter.cs:140-146 | The item's fingerprint lies in 1..fingerprintMask |
| Cuckoo.CuckooFilter.Index1 | src/Guardian/Algorithm/CuckooFilter.cs:149-153 | The primary bucket is a valid bucket index |
| Cuckoo.CuckooFilter.Index2 | src/Guardian/Algorithm/CuckooFilter.cs:156-162 | The alternate bucket is a valid bucket index |
| Cuckoo.CuckooFilter.Index2Involution | src/Guardian/Algorithm/CuckooFilter.cs:156-162 | Taking the alternate bucket twice with the same fingerprint returns to the starting bucket |
| Cuckoo.CuckooFilter.AlternateIsCandidate | src/Guardian/Algorithm/CuckooFilter.cs:42-44 | The alternate of either candidate bucket of an item is again a candidate bucket of it |
| Cuckoo.CuckooFilter.InsertKeepsHolds | src/Guardian/Algorithm/CuckooFilter.cs:94-107 | Inserting the fingerprint in hand keeps every item held and places the item in hand |
| Cuckoo.CuckooFilter.SwapKeepsHolds | src/Guardian/Algorithm/CuckooFilter.cs:54-57 | After a kick-out swap an item is held, or it is the evicted fingerprint now in hand for its alternate bucket |
| Cuckoo.CuckooFilter.BucketCountFor | src/Guardian/Algorithm/CuckooFilter.cs:27-31 | The doubling loop ends at the least power of two that is at least the target |
| Cuckoo.CuckooFilter.NewBuckets | src/Guardian/Algorithm/CuckooFilter.cs:33-37 | bucketCount distinct new arrays of bucketSize zero slots |
| Cuckoo.CuckooFilter.Create | src/Guardian/Algorithm/CuckooFilter.cs:13-38 | Each argument error is reported exactly when it occurs, in the source's order: a bad fingerprint width, then division by zero, then the overflow of int.MinValue / -1, then a negative size. Otherwise the result is a valid, empty filter with the requested parameters, hashing with MurmurHash3, whose bucket count is the least power of two at or above max(1, capacity / bucketSize) |
| Cuckoo.CuckooFilter.constructor | src/Guardian/Algorithm/CuckooFilter.cs:13-38 | A valid, empty filter with mask 2^bits - 1 and the least power-of-two bucket count at or above the target |
| Cuckoo.CuckooFilter.TryInsert | src/Guardian/Algorithm/CuckooFilter.cs:94-107 | Succeeds exactly when the bucket has an empty slot; then the fingerprint fills its first empty slot. Otherwise nothing changes |
| Cuckoo.CuckooFilter.ContainsAt | src/Guardian/Algorithm/CuckooFilter.cs:110-121 | True exactly when the bucket holds the fingerprint |
| Cuckoo.CuckooFilter.TryDelete | src/Guardian/Algorithm/CuckooFilter.cs:124-137 | Succeeds exactly when the bucket holds the fingerprint; then its first occurrence is zeroed. Otherwise nothing changes |
| Cuckoo.CuckooFilter.Contains | src/Guardian/Algorithm/CuckooFilter.cs:67-74 | True exactly when the fingerprint is in the primary or the alternate bucket (membership) |
| Cuckoo.CuckooFilter.Remove | src/Guardian/Algorithm/CuckooFilter.cs:76-83 | Reports whether the item was a member. It deletes from the primary bucket first, else from the alternate, and frees one slot exactly when it succeeds |
| Cuckoo.CuckooFilter.ClearBucket | src/Guardian/Algorithm/CuckooFilter.cs:89 | Array.Clear zeroes one bucket and no other |
| Cuckoo.CuckooFilter.Clear | src/Guardian/Algorithm/CuckooFilter.cs:85-91 | Every bucket is empty afterwards and no item is a member |
| Cuckoo.CuckooFilter.Add | src/Guardian/Algorithm/CuckooFilter.cs:40-65 | On success the item is a member, every earlier member stays one, and exactly one slot is newly occupied. On failure the count is unchanged |
| Cuckoo.CuckooFilter.Swap | src/Guardian/Algorithm/CuckooFilter.cs:55 | The tuple swap: returns the slot's old fingerprint and writes the one in hand |
| Cuckoo.CuckooFilter.Relocate | src/Guardian/Algorithm/CuckooFilter.cs:51-64 | The kick-out loop over at most maxKicks swaps; on success the item and all earlier members are reported and one slot is newly occupied |
| Cuckoo.CuckooFilter.SwapPreserves | src/Guardian/Algorithm/CuckooFilter.cs:54-57 | One kick keeps the loop invariant: every earlier member is held or is the fingerprint in hand, and the count is unchanged |
| Cuckoo.CuckooFilter.InsertPlaces | src/Guardian/Algorithm/CuckooFilter.cs:58-61 | The final insertion of the fingerprint in hand makes the item and every earlier member held again, with one more occupied slot |
| Domains.CastToBytesIsUtf16 | src/Guardian/Filters/DomainFilter.cs:123-124 | Reinterpreting a suffix's chars as bytes gives the same bytes Encoding.Unicode gave Load, so probes and loads use one key |
| Domains.FindDomainStartIndex | src/Guardian/Filters/DomainFilter.cs:72-91 | 12, 11, 4 or 0 exactly as the URL starts with "https://www.", "http://www.", "www." or none of them |
| Domains.FindDomainEndIndex | src/Guardian/Filters/DomainFilter.cs:94-98 | The first ':', '?', '#' or '/', or the length when there is none |
| Domains.IndexOfAny | src/Guardian/Filters/DomainFilter.cs:96 | string.IndexOfAny: the first position holding one of the characters, or -1 when none occurs |
| Domains.ParseDomain | src/Guardian/Filters/DomainFilter.cs:65-66 | Fails exactly when the end index lies before the start index; otherwise the slice between them, which holds no end character |
| Domains.SchemeUrlsFailToParse | src/Guardian/Filters/DomainFilter.cs:65-91 | Every "http://www." or "https://www." URL fails to parse, because its scheme's ':' ends the domain before it starts |
| Domains.SuffixStartShape | src/Guardian/Filters/DomainFilter.cs:101-120 | The backward scan stops just after the k-th dot from the end, or at 0 when there are fewer dots |
| Domains.DomainSuffixShape | src/Guardian/Filters/DomainFilter.cs:101-120 | The k-th suffix is a suffix of the domain holding k - 1 dots and preceded by a dot, or the whole domain when it has fewer than k dots |
| Domains.LastProbeIsWholeDomain | src/Guardian/Filters/DomainFilter.cs:48-60 | The last suffix probed (labelIndex = dots + 1) is the whole domain |
| Domains.BuildDomainSuffix | src/Guardian/Filters/DomainFilter.cs:101-120 | The scan loop returns the labelIndex-th label-aligned suffix |
| Domains.OtherExampleProbes | src/Guardian/Filters/DomainFilter.cs:50-51 | "otherexample.com" has two labels and probes "com", then the whole domain |
| Domains.DomainFilter.constructor | src/Guardian/Filters/DomainFilter.cs:17 | A new filter has no cuckoo filter and lists nothing |
| Domains.DomainFilter.ListedIsMember | src/Guardian/Filters/DomainFilter.cs:56 | A string is listed exactly when the cuckoo filter reports its UTF-16 bytes |
| Domains.DomainFilter.Load | src/Guardian/Filters/DomainFilter.cs:19-26 | A new filter is sized for the list, with default parameters. At most one slot per domain is occupied, and when every Add succeeded, every domain is listed |
| Domains.DomainFilter.Build | src/Guardian/Filters/DomainFilter.cs:21-25 | The new cuckoo filter with the domains added, and the set of strings it reports |
| Domains.DomainFilter.AddAll | src/Guardian/Filters/DomainFilter.cs:22-25 | Each failed Add is one slot short of the count, and with no failure every domain is a member |
| Domains.DomainFilter.AddKey | src/Guardian/Filters/DomainFilter.cs:24 | One Add: the count grows by one unless it failed, and the members so far stay members while nothing failed |
| Domains.DomainFilter.Clear | src/Guardian/Filters/DomainFilter.cs:28 | A loaded filter keeps its cuckoo filter but lists nothing; an unloaded one stays unloaded |
| Domains.DomainFilter.ProbeSuffixes | src/Guardian/Filters/DomainFilter.cs:52-62 | True exactly when some label-aligned suffix (1 to the label count) is a member |
| Domains.DomainFilter.Probe | src/Guardian/Filters/DomainFilter.cs:55-56 | One probe: true exactly when that suffix's bytes are a member |
| Domains.DomainFilter.Contains | src/Guardian/Filters/DomainFilter.cs:30-63 | The verdict: false when unloaded or over the URL or domain length limits, the parse error when the domain slice is out of range, else whether some suffix of the domain is listed |
| Blocklist.LowerChar | src/Guardian/Filters/BlocklistFilter.cs:151 | Lower-casing leaves no upper-case ASCII letter and keeps the dot |
| Blocklist.LowerIdempotent | src/Guardian/Filters/BlocklistFilter.cs:151 | Lower-casing twice is lower-casing once |
| Blocklist.AuthorityOf | src/Guardian/Filters/BlocklistFilter.cs:163-167 | The authority is the longest prefix of the rest without '/', '?' or '#' |
| Blocklist.AuthorityStart | src/Guardian/Filters/BlocklistFilter.cs:158-161 | 0 exactly when "://" occurs nowhere; otherwise the position just after its first occurrence |
| Blocklist.StripPort | src/Guardian/Filters/BlocklistFilter.cs:169-170 | The port is cut at the first ':' unless the authority starts with one; an authority without ':' or starting with one is the host |
| Blocklist.ExtractHost | src/Guardian/Filters/BlocklistFilter.cs:156-171 | The host is a prefix of what follows the first "://" (or of the whole URL) without path characters, ending at the end, at a path character, or at a ':' that does not start it |
| Blocklist.ExtractHostOfUrl | src/Guardian/Filters/BlocklistFilter.cs:156-171 | For scheme + "://" + host + a port, path, query or fragment (or nothing), the extracted host is exactly that host |
| Blocklist.NextDotIsFirst | src/Guardian/Filters/BlocklistFilter.cs:39-52 | The scan stops at the first dot at or after the start |
| Blocklist.LabelsAreLabels | src/Guardian/Filters/BlocklistFilter.cs:39-52 | Every segment the split produces is a non-empty, dot-free, lower-case label |
| Blocklist.LabelsIgnoreCase | src/Guardian/Filters/BlocklistFilter.cs:148-154 | A string and its lower-cased form split into the same labels, so matching ignores case |
| Blocklist.LabelsOfJoin | src/Guardian/Filters/BlocklistFilter.cs:39-52 | The labels of a + "." + b are the labels of a followed by those of b |
| Blocklist.CutLabel | src/Guardian/Filters/BlocklistFilter.cs:46-51 | Reaching a dot or the end emits the run since the last start, when it is non-empty |
| Blocklist.SplitLabels | src/Guardian/Filters/BlocklistFilter.cs:36-52 | The loop's segments are the string's labels: the non-empty dot-separated runs, lower-cased |
| Blocklist.ScanAt | src/Guardian/Filters/BlocklistFilter.cs:39-52 | One step of the split loop keeps its invariant |
| Blocklist.GrowStep | src/Guardian/Filters/BlocklistFilter.cs:64-80 | Adding the missing child on the walk keeps every old node and its flag |
| Blocklist.FlagStep | src/Guardian/Filters/BlocklistFilter.cs:83 | Flagging the last node completes the insertion of the path |
| Blocklist.AbsentExtension | src/Guardian/Filters/BlocklistFilter.cs:127-130 | Once a child is missing, no longer path below it is in the trie |
| Blocklist.InsertKeepsShape | src/Guardian/Filters/BlocklistFilter.cs:59-83 | Inserting a path keeps the trie closed under prefixes |
| Blocklist.InsertBlocks | src/Guardian/Filters/BlocklistFilter.cs:59-83 | After the insertion a path is blocked exactly when it was before, or when it extends the inserted path |
| Blocklist.RootAloneBlocksNothing | src/Guardian/Filters/BlocklistFilter.cs:28-32 | A trie with only its root blocks nothing |
| Blocklist.WildcardCoversSubdomains | src/Guardian/Filters/BlocklistFilter.cs:17-26 | A stored entry blocks its own domain and every subdomain of it |
| Blocklist.StoredEntryCoversSubdomains | src/Guardian/Filters/BlocklistFilter.cs:17-26 | After "*.d" is stored, every host x + "." + d is blocked |
| Blocklist.FirstInsertBlocksExtensions | src/Guardian/Filters/BlocklistFilter.cs:59-83 | In an empty trie, one insertion blocks exactly the extensions of its path |
| Blocklist.WildcardExample | src/Guardian/Filters/BlocklistFilter.cs:17-26 | "*.ads.example.com" blocks sub.ads.example.com, not example.com and not notads.example.com |
| Blocklist.BlocklistFilter.constructor | src/Guardian/Filters/BlocklistFilter.cs:14 | A new trie holds only its root, unflagged |
| Blocklist.BlocklistFilter.Clear | src/Guardian/Filters/BlocklistFilter.cs:28-32 | Only the root remains, and no URL is blocked |
| Blocklist.BlocklistFilter.ProcessDomain | src/Guardian/Filters/BlocklistFilter.cs:34-84 | A domain with 1 to 127 labels has its reversed label path inserted and flagged; any other domain changes nothing |
| Blocklist.BlocklistFilter.LoadBlocklist | src/Guardian/Filters/BlocklistFilter.cs:17-26 | Afterwards a path is blocked exactly when it was before or extends the path of a stored "*." entry of the list |
| Blocklist.BlocklistFilter.LoadEntry | src/Guardian/Filters/BlocklistFilter.cs:21-24 | One wildcard entry extends the blocked set by the extensions of its path |
| Blocklist.BlocklistFilter.Walk | src/Guardian/Filters/BlocklistFilter.cs:122-144 | The walk finds a flagged node on the host's path exactly when the path is blocked |
| Blocklist.BlocklistFilter.Contains | src/Guardian/Filters/BlocklistFilter.cs:86-145 | False for an empty URL or host and for 0 or more than 127 labels; otherwise whether the host's label path meets a flagged node |
| Text.IndexOfChar | src/Guardian.Proxy/ProxyServer.Http.cs:49 | The first position of the character, or -1 when it is absent |
| Text.IndexOfText | src/Guardian.Proxy/ProxyServer.Http.cs:48 | The first position where the pattern matches, or -1 when it matches nowhere |
| Text.IndexOfCharInPrefix | src/Guardian.Proxy/ProxyServer.Http.cs:49 | Appending text does not move a character already found |
| Text.IndexOfTextInPrefix | src/Guardian.Proxy/ProxyServer.Http.cs:48 | Appending text does not move a pattern already found |
| Int32Text.ParseInt | src/Guardian.Proxy/ProxyServer.Https.cs:40 | int.Parse yields only 32-bit values |
| Int32Text.ParseSignedRender | src/Guardian.Proxy/ProxyServer.Https.cs:40 | A rendered number reads back as itself inside the 32-bit range and as an overflow outside it |
| Int32Text.DigitsOfDecimal | src/Guardian.Proxy/ProxyServer.Https.cs:40 | The digits of a number read back as that number |
| Int32Text.ParseRender | src/Guardian.Proxy/ProxyServer.Https.cs:40 | Every 32-bit number round-trips through its text |
| Int32Text.ParseRenderOverflow | src/Guardian.Proxy/ProxyServer.Https.cs:40 | A number outside the 32-bit range is an overflow error, never a wrong value |
| Int32Text.ParseSkipsWhite | src/Guardian.Proxy/ProxyServer.Https.cs:40 | Surrounding white space does not change the result of a text that does not itself end in a NUL |
| Int32Text.ParseRejectsStrayCharacter | src/Guardian.Proxy/ProxyServer.Https.cs:40 | Any character other than a digit, a sign or white space makes it a format error, except NULs that only NULs follow |
| Int32Text.ParseSkipsTrailingNuls | src/Guardian.Proxy/ProxyServer.Https.cs:40 | NUL characters at the very end do not change the result |
| Int32Text.ParseRenderWhiteNuls | src/Guardian.Proxy/ProxyServer.Https.cs:40 | A 32-bit number followed by white space and then NULs (such as "443 \0\0") reads back as itself |
| Int32Text.ParseRenderWhite | src/Guardian.Proxy/ProxyServer.Https.cs:40 | A 32-bit number followed by white space reads back as itself |
| Int32Text.ParseNulBeforeWhite | src/Guardian.Proxy/ProxyServer.Https.cs:40 | A NUL followed by white space (such as "443\0 ") is a format error: NULs are accepted only after the trailing white space |
| Proxy.AsciiChar | src/Guardian.Proxy/ProxyServer.cs:159 | ASCII decoding keeps bytes below 128 and turns the others into '?' |
| Proxy.AsciiByte | src/Guardian.Proxy/ProxyServer.Http.cs:60 | ASCII encoding keeps chars below 128 and turns the others into '?' |
| Proxy.EncodeDecode | src/Guardian.Proxy/ProxyServer.Http.cs:60 | Decoding then encoding returns ASCII bytes unchanged and replaces the others by '?' |
| Proxy.DecodeEncode | src/Guardian.Proxy/ProxyServer.cs:159 | Encoding then decoding returns an ASCII string unchanged |
| Proxy.StartsWithAny | src/Guardian.Proxy/ProxyServer.cs:162 | True exactly when the data starts with one of the methods, ignoring case |
| Proxy.IsEitherHttpOrHttps | src/Guardian.Proxy/ProxyServer.cs:156-164 | True exactly when the decoded read starts, ignoring case, with a known method or CONNECT |
| Proxy.RecognitionNeedsThreeBytes | src/Guardian.Proxy/ProxyServer.cs:156-164 | A recognised read holds at least three bytes (the shortest method) |
| Proxy.RecognitionIsPrefixTest | src/Guardian.Proxy/ProxyServer.cs:162-163 | The test is a case-blind prefix test: "GETX" and "get" are recognised |
| Proxy.RecognitionIsAnchored | src/Guardian.Proxy/ProxyServer.cs:162-163 | A method that is not at the start does not count: "XGET" is refused |
| Proxy.FirstLine | src/Guardian.Proxy/ProxyServer.cs:176-185 | The request line is the data up to its first CR LF, or all of it |
| Proxy.Split | src/Guardian.Proxy/ProxyServer.cs:169 | String.Split: at least one piece, none holding the separator |
| Proxy.JoinSplit | src/Guardian.Proxy/ProxyServer.cs:169 | Joining the pieces with the separator gives back the string |
| Proxy.SplitJoin | src/Guardian.Proxy/ProxyServer.cs:169 | Splitting a join of separator-free pieces gives back the pieces |
| Proxy.SplitHasThreePieces | src/Guardian.Proxy/ProxyServer.cs:171 | There are at least three pieces exactly when the string holds two separators |
| Proxy.ParseLine | src/Guardian.Proxy/ProxyServer.cs:166-174 | Fails exactly when the line holds fewer than two spaces; otherwise three space-free words |
| Proxy.ParseWellFormedLine | src/Guardian.Proxy/ProxyServer.cs:166-174 | "method url version" parses to exactly those three words |
| Proxy.ParseIgnoresExtraWords | src/Guardian.Proxy/ProxyServer.cs:171-173 | Words after the third are ignored |
| Proxy.KnownMethodIsRecognised | src/Guardian.Proxy/ProxyServer.cs:156-174 | A parsed request whose method is a known one in any case is recognised |
| Proxy.DispatchHandlesIffAccepted | src/Guardian.Proxy/ProxyServer.cs:116-127 | A handler runs exactly when the read is recognised, the line parses, and no filter is set or the filter accepts the URL |
| Proxy.DispatchByMethod | src/Guardian.Proxy/ProxyServer.cs:129-138 | CONNECT (any case) tunnels to the URL; every other method is forwarded with its parsed line |
| Proxy.RebuildRequest | src/Guardian.Proxy/ProxyServer.Http.cs:38-75 | The rewrite fails only with the slice error |
| Proxy.RebuildShape | src/Guardian.Proxy/ProxyServer.Http.cs:45-75 | A rewritten request starts with the new request line and keeps the body bytes at its end |
| Proxy.FirstNewlineEndsLine | src/Guardian.Proxy/ProxyServer.Http.cs:49 | The first '\n' of a head is the one ending the request line |
| Proxy.RebuildReplacesRequestLine | src/Guardian.Proxy/ProxyServer.Http.cs:45-75 | For a well-formed head, only the request line is replaced; headers and body pass unchanged |
| Proxy.RebuildRejectsBareRequestLine | src/Guardian.Proxy/ProxyServer.Http.cs:49 | A request with no header line (its blank line right after the request line) throws |
| Proxy.RebuildNeedsBlankLine | src/Guardian.Proxy/ProxyServer.Http.cs:48-49 | A read without CR LF CR LF throws |
| Proxy.CopyPrefix | src/Guardian.Proxy/ProxyServer.Http.cs:64-69 | Buffer.BlockCopy writes the encoded head at the start and nothing after it |
| Proxy.CopySlice | src/Guardian.Proxy/ProxyServer.Http.cs:72 | The body bytes are copied after the head, leaving the head intact |
| Proxy.Combine | src/Guardian.Proxy/ProxyServer.Http.cs:61-72 | The combined array is the head followed by the body slice |
| Proxy.BuildHttpRequest | src/Guardian.Proxy/ProxyServer.Http.cs:38-75 | The array method fails exactly when the rewrite does, and otherwise returns a new array holding the rewritten request |
| Server.ParseHostAndPort | src/Guardian.Proxy/ProxyServer.Https.cs:34-43 | A parsed host is the colon-free start of the URL, and an explicit port is a 32-bit value |
| Server.HostAloneGetsDefaultPort | src/Guardian.Proxy/ProxyServer.Https.cs:39 | A URL without ':' is the host on the default port |
| Server.HostAndPortRoundTrip | src/Guardian.Proxy/ProxyServer.Https.cs:34-43 | "host:port" parses back to the host and the port |
| Server.PortOutOfRangeRejected | src/Guardian.Proxy/ProxyServer.Https.cs:40 | A port outside the 32-bit range is an overflow error |
| Server.TwoColonsRejected | src/Guardian.Proxy/ProxyServer.Https.cs:41 | Two or more colons are a format error |
| Server.HandleHttps | src/Guardian.Proxy/ProxyServer.Https.cs:8-32 | CONNECT tunnels exactly when the target parses and the connection succeeds; otherwise it fails |
| Server.TunnelReplyEndsHead | src/Guardian.Proxy/ProxyServer.Https.cs:23 | The reply is "HTTP/1.1 200 Connection Established" followed by CR LF CR LF, sent to the parsed target |
| Server.HandleHttp | src/Guardian.Proxy/ProxyServer.Http.cs:8-36 | A plain request is forwarded or fails; it is never tunnelled |
| Server.ForwardedIsRebuilt | src/Guardian.Proxy/ProxyServer.Http.cs:17-28 | Forwarded exactly when the URI parses, the connection succeeds and the rewrite succeeds; what is sent is the rewritten request |
| Server.ServeSendsOnlyAccepted | src/Guardian.Proxy/ProxyServer.cs:116-127 | Nothing is sent unless the read is recognised, parses and passes the filter; a refused URL is closed before any connection |
| Server.ServeByMethod | src/Guardian.Proxy/ProxyServer.cs:129-138 | Tunnels come only from CONNECT and forwarded requests only from other methods |
| Server.HandleHttpRequest | src/Guardian.Proxy/ProxyServer.Http.cs:8-36 | The handler method on the rented buffer ends as the plain-request outcome says |
| Server.ProxyServer.constructor | src/Guardian.Proxy/ProxyServer.cs:34-42 | A new server on the port: not cancelled, not disposed, no filter |
| Server.ProxyServer.Stop | src/Guardian.Proxy/ProxyServer.cs:72-82 | Cancels and stops the listener once; a second call changes nothing |
| Server.ProxyServer.UseFilter | src/Guardian.Proxy/ProxyServer.cs:84 | Replaces the filter and nothing else |
| Server.ProxyServer.Dispose | src/Guardian.Proxy/ProxyServer.cs:86-99 | Stops, then disposes the cancellation source, once; a second call changes nothing |
| Server.ProxyServer.HandleClient | src/Guardian.Proxy/ProxyServer.cs:101-154 | A connection's outcome is the dispatch decision followed by the chosen handler |
| ViewModel.AnyBlockedFromIsFirstReport | src/Guardian/ViewModels/MainViewModel.cs:211-215 | The short-circuit "or" of the block lists is false exactly when every list says false; otherwise it is the answer of the first list that does not |
| ViewModel.AnyBlockedOfFive | src/Guardian/ViewModels/MainViewModel.cs:211-215 | For the five lists, the first one not answering false decides |
| ViewModel.Decide | src/Guardian/ViewModels/MainViewModel.cs:203-228 | A whitelisted domain is let through; the whitelist's exception propagates; otherwise the answer is the negation of the block lists' "or", or its exception |
| ViewModel.DecideWithoutErrors | src/Guardian/ViewModels/MainViewModel.cs:203-228 | Without exceptions a request is let through exactly when it is whitelisted or on no block list |
| ViewModel.CountBlockedAppend | src/Guardian/ViewModels/MainViewModel.cs:218-220 | One more event adds one to the blocked count exactly when it is a blocking event |
| ViewModel.EmptyNeverBlocks | src/Guardian/ViewModels/MainViewModel.cs:106-109 | A cleared filter never reports a domain |
| ViewModel.MainViewModel.NothingBlockedByDefault | src/Guardian/ViewModels/MainViewModel.cs:18-23 | With no blacklist loaded and every category off, no request is blocked |
| ViewModel.MainViewModel.NewFilters | src/Guardian/ViewModels/MainViewModel.cs:18-23 | Six distinct new filters, none loaded |
| ViewModel.MainViewModel.constructor | src/Guardian/ViewModels/MainViewModel.cs:18-43 | Counters at zero, no events, every switch off, and the invariant holds |
| ViewModel.MainViewModel.Notify | src/Guardian/ViewModels/MainViewModel.cs:231 | The event is appended and the blocked-event count grows by one exactly for a blocking event |
| ViewModel.MainViewModel.AskNext | src/Guardian/ViewModels/MainViewModel.cs:211-215 | One "or" step: a list is asked only while the earlier ones all said false |
| ViewModel.MainViewModel.AskBlockLists | src/Guardian/ViewModels/MainViewModel.cs:211-215 | The five block lists are asked in the source's order, and the first answer other than false decides |
| ViewModel.MainViewModel.Classify | src/Guardian/ViewModels/MainViewModel.cs:203-223 | The filters' decision on the short URL is the whitelist-then-block-lists answer |
| ViewModel.MainViewModel.Record | src/Guardian/ViewModels/MainViewModel.cs:199-222 | The request count always grows. An event is raised only when the filters answered, and the blocked count grows exactly for a blocking answer |
| ViewModel.MainViewModel.UrlFilter | src/Guardian/ViewModels/MainViewModel.cs:197-229 | Answers the whitelist-then-block-lists decision and keeps the invariant: the blocked count equals the blocking events, and the proxy runs exactly while protection is on |
| ViewModel.MainViewModel.SetSwitch | src/Guardian/ViewModels/MainViewModel.cs:33-36 | Sets one category switch and changes no other field |
| ViewModel.MainViewModel.OnUseFilterChanged | src/Guardian/ViewModels/MainViewModel.cs:100-146 | Switched on, the category's filter is loaded from its list; switched off, it lists nothing. No other filter changes |
| ViewModel.MainViewModel.SetUseFilter | src/Guardian/ViewModels/MainViewModel.cs:100-146 | Setting a switch to its current value changes nothing. Otherwise the switch changes and its filter is loaded or cleared, keeping "off means empty" |
| ViewModel.MainViewModel.LoadBlacklistFile | src/Guardian/ViewModels/MainViewModel.cs:156-159 | When the file exists the blacklist is loaded from its lines; otherwise it is untouched |
| ViewModel.MainViewModel.LoadWhitelistFile | src/Guardian/ViewModels/MainViewModel.cs:161-164 | When the file exists the whitelist is loaded from its lines; otherwise it is untouched |
| ViewModel.MainViewModel.SetProxy | src/Guardian/ViewModels/MainViewModel.cs:166-194 | The proxy and the system proxy setting are started or stopped together; nothing else changes |
| ViewModel.MainViewModel.EnableProtection | src/Guardian/ViewModels/MainViewModel.cs:148-179 | No-op when protection is already on. Otherwise the lists whose files exist are loaded, and the proxy starts with the system proxy pointing at it |
| ViewModel.MainViewModel.DisableProtection | src/Guardian/ViewModels/MainViewModel.cs:181-195 | No-op when protection is off. Otherwise the system proxy is restored and the proxy stops |
| ViewModel.MainViewModel.SetProtectionEnabled | src/Guardian/ViewModels/MainViewModel.cs:57 | Sets the protection switch and no other field |
| ViewModel.MainViewModel.ToggleProtection | src/Guardian/ViewModels/MainViewModel.cs:46-58 | Flips the switch and enables or disables accordingly; afterwards the proxy runs exactly while protection is on |

## Left out

- Server.ProxyServer.constructor accepts any port: the TcpListener it would create (src/Guardian.Proxy/ProxyServer.cs:36) is a socket and is not modelled, so its ArgumentOutOfRangeException for a port outside 0..65535 is not either. The only caller passes the fixed port 8888.
- Sockets, streams, the relay loop, the accept loop (StartAsync), timeouts, ArrayPool renting and cancellation tokens are I/O and concurrency. Connection handling starts from one first read, given as a byte array.
- `new Uri(url)` and `new TcpClient(host, port)` are external calls. They are parameters: a URI parser and a predicate saying whether the connection succeeds.
- Int32.Parse uses the invariant culture's signs only; culture-specific signs and the other number styles are not modelled.
- The UrlFiltered event's elapsed time (Stopwatch) is not modelled; an event holds the full URL and the decision.
- ViewModel.MainViewModel.UrlFilter takes the full and the short URL as two parameters. The proxy's filter is a predicate on one URL. How the source passes its tuple-typed UrlFilter to UseFilter is not modelled.
- ViewModel.MainViewModel.UrlFilter is split into Classify (the queries) and Record (the counters and the event). The order differs from the source's (count, query, notify) but the outcome is the same, because the queries change no state.
- A thrown exception (the URL parse error) in UrlFilter is a result value. The request counter still grows and no event is raised, as in the source.
- ViewModel.MainViewModel.EnableProtection: the BackgroundWorker, the ProxyServer it creates and the SystemProxyManager are boolean state (`proxyRunning`, `systemProxyConfigured`). File.Exists and File.ReadAllLines are an optional list of lines.
- ViewModel.MainViewModel.OnUseFilterChanged: FilterLoader's file read is the list of entries passed in. EditBlacklistAsync and EditWhitelistAsync (notepad, file writes) are not modelled.
- ViewModel.MainViewModel.SetUseFilter models the property setter generated for the switches: it does nothing when the value is unchanged and otherwise calls the change handler. The PropertyChanged notifications are not modelled.
- The counters are unbounded integers; their 32-bit overflow after 2^31 requests is not modelled.
- Domains.DomainFilter.Load states membership of every domain only when every Add succeeded. A failed Add drops one fingerprint, and which one depends on the random kicks.
- Cuckoo.CuckooFilter.Add: the random bucket and slot choices are nondeterministic. When Add fails, the contract keeps only the count, not which fingerprint was dropped.
- Cuckoo.CuckooFilter.Create requires a bucket target of at most 2^30 whenever the division succeeds. Above that the source's doubling loop overflows the 32-bit int and never ends. The one division that throws instead (capacity = int.MinValue, bucketSize = -1, OverflowException) is the DivisionOverflow error.
- The DomainFilter keeps, beside its cuckoo filter, the set of strings it reports (a ghost field). The view model's proofs are stated over that set rather than over the hash.
- The fmix32 finalizer being a bijection is not proved; no part of the source relies on it.
- Domains.CodeUnitBytes: a Dafny `char` is a Unicode scalar value, not a UTF-16 code unit. A C# string holding a lone surrogate cannot be represented, and a character above U+FFFF (a surrogate pair, two code units, in C#) is truncated to its low 16 bits by `% 0x1_0000` instead of becoming two code units.
- Domains.CastToBytesIsUtf16 holds for the strings the model can represent. For a C# string with a lone surrogate, Encoding.Unicode writes U+FFFD while the cast keeps the surrogate, so Load and Contains would use different keys; that case is not modelled.
- Blocklist.LowerChar: lower-casing (ToLowerInvariant) covers ASCII letters only; other letters are left as they are.
- The BlocklistFilter trie is a map from label paths to flags. The string pool, the cycle check that cannot fire and GC.Collect are not modelled, and neither is Dispose (a pool reset).
- "http://www." and "https://www." URLs are parse errors in DomainFilter.Contains. The scheme's ':' is found as the domain's end before the computed start, and the slice throws. The "http://www." and "https://www." branches of FindDomainStartIndex (src/Guardian/Filters/DomainFilter.cs:80-88) show that such URLs were meant to be parsed; the model follows the code as written (Domains.SchemeUrlsFailToParse).
