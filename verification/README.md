# From bytes to a cached page

A model, with proofs, of the request path of the gogogo web server: bytes
arriving on a connection become requests, a request path is routed, and a page
with runtime data is served through two stacked caches.

| part | files | in one sentence |
|---|---|---|
| HTTP/1.x parser | `HttpBytes`, `HttpGrammar`, `HttpFraming`, `HttpPrinting`, `HttpSpelling`, `HttpRefusals`, `HttpRequest` | the head parser as a pure decoder with its laws, exactly which bytes it accepts and which statuses the others get, and the parser that fills a request object with slices of the read buffer, proved equal to it |
| connection loop | `HttpDecoder`, `HttpPipelines`, `HttpServer`, `HttpLargeRequests` | the read buffer that is regrown, re-parsed and compacted serves the handler exactly what decoding the whole byte stream yields |
| chunked responses | `Chunked` | the chunk writer over a connection that may fail in any write, and a decoder of section 4.1 of RFC 7230 |
| router | `RoutePaths`, `RoutePatterns`, `TrieNodes`, `RouteTrie`, `RouteRuns`, `RouteRejections` | the node array with backtracking search finds the declaratively best accepted pattern; what rejected inserts leave and when it matters |
| cache structure | `LruItems`, `Lru`, `Recency` | hash map, linked list, reverse index and byte counter of both caches represent one list of items, in the order of last use over every run |
| SQL row cache | `Rows`, `WriteRate`, `QuerySpec`, `QueryCache`, `QueryRuns`, `QueryReplay`, `QueryFailures`, `CacheFailures` | queries through the cache are answered as direct queries, over every run; exactly when a stored answer would be wrong |
| hole pages | `HoleBlobs`, `PageSplice`, `BindingText`, `PageSpec`, `AcceptedEncodings`, `PageCache`, `PageRuns`, `PageLoad` | hole blobs, splicing, loading, and the page cache on top of the row cache, invisible over every run |
| table extraction | `TableNames`, `SqlTables`, `SqlWords` | the byte scan for FROM and JOIN, and what it yields word by word for every statement |
| subscriptions | `Subscriptions` | subscribe, close, notify and reload as interleaved steps |

Where the source updates state in place, the model is a class whose methods
carry the same loops and branches (`HttpServer.Server`, `RouteTrie.Trie`,
`Lru.Lru`, `QueryCache.Cache`, `PageCache.App`, `Chunked.ChunkedWriter`, ...);
each method is proved against a function on values, and the laws are lemmas
about those functions. `Options.dfy` and `Sequences.dfy` hold what all share. Every
lemma switches Dafny's automatic induction off, so each inductive step is one
that the lemma's body names.

## Assumptions of the transparency theorems

* The rows of each statement that the run asks depend only on the contents of
  the tables extracted for it (`Rows.Attributed`; `Rows.ReadersAreAttributed`
  gives the runs that meet it). `QueryFailures.StaleIff` says
  exactly when a cached statement goes stale without it, and two runs show it:
  a table spelled in another case than its schema does
  (`CacheFailures.OtherCaseIsStale`), since names are compared as written, and a
  table named with its schema (`CacheFailures.QualifiedIsStale`).
* Templates render deterministically: rendering is a function of the template
  and its context.
* Each query of the run leaves the rows that the database of its moment delivers
  as they are (`QueryRuns.Undisturbing`). `QueryFailures.DisturbedIff` says that
  a stored answer is right for the next query exactly then. For pages this means
  that a request with bindings renders no row with a column called `_params`
  (`PageRuns.NoneClobbered`, `PageSpec.UndisturbedIff`), because the template
  visitor deletes that key from the very row the cache keeps;
  `CacheFailures.RenderedRowLosesColumn` shows the wrong answer that follows.
* Requests that share a page-cache key ask for the same page
  (`PageSpec.ToldApart`): a hole offset belongs to one route, and requests of
  one route with the same binding hash have the same bindings. A hash without
  collisions gives that for values that lack the byte 0, which ends a binding in
  the hashed text (`PageSpec.PlainAsksToldApart`,
  `PageSpec.RoutedAsksToldApart`). For other values no hash
  does, since the text itself is shared: `BindingText.TextTellsIff` says for
  which routes, and `PageSpec.NulSharesKey` gives two paths. The request parser
  takes such paths. `PageSpec.SharedKeyServesFirst` says what a shared key leads
  to. No such assumption is needed for the hash of SQL texts, since the row
  cache compares the text itself.
* A write changes one table and runs its hook as one step; a request is one
  step.
* What another process writes is seen from the watcher's next flush on
  (`QueryRuns.Settled`, `PageRuns.Settled`). Until then a cached statement is
  answered rightly exactly when its rows did not change
  (`QueryFailures.UnsettledIff`).

## Where the code and its documentation differ

The model follows the code.

* `MaxReadBuf` is documented as the bound on the read buffer. Growing for a body
  may double past it. `HttpDecoder.BoundKeptIff` says exactly when the bound is
  kept, `HttpServer.TwoLargeRequests` which connections pass it,
  `HttpLargeRequests.PassTheBound` runs one on concrete bytes, and
  `HttpServer.ServeConn` shows that no connection passes twice the bound or its
  initial length.
* Whether a request line of the longest length allowed, ended by CRLF, is taken
  depends on where a read cuts it (`HttpDecoder.SplitLineRefusedIff`).
* The routing page says empty catch-alls do not match; the code matches them.
* The comment on table extraction says schema prefixes are stripped. The scan
  stops a name at the dot, so it yields the schema
  (`SqlWords.SchemaNotStripped`) and the stripping code is never reached.
* `readHoles` asks for ten bytes where the smallest record has eight
  (`HoleBlobs.BlobRoundTrip`, `HoleBlobs.ShortRecordRefused`).
* More writes than the threshold within one window are documented to start a
  bypass. The code counts in windows of its own, and a burst across two of them
  may start none (`WriteRate.StraddledBurst`); twice the threshold always does
  (`WriteRate.BurstStartsBypass`).
* Captures do not always determine the path: a catch-all that took one empty
  segment looks like one that took none
  (`RoutePatterns.LoneEmptyRemainderExample`).
* A rejected insert leaves nodes behind that can make a later insert fail
  (`RouteRuns.RejectedInsertLeavesName`). `RouteRejections` says what it leaves,
  exactly when that changes nothing, and exactly which later inserts it refuses.
* A reload that fails after subscribing leaves its subscription behind for good
  (`Subscriptions.FailedLoadStays`); `Subscriptions.ReloadsLeave` says which
  subscriptions of reloads are in the list at any time, and
  `Subscriptions.FailedReload` is such a run.

## Model

| member | source | states |
|---|---|---|
| HttpServer.ServeConn | modules/gogohttp/server.go:143-171 | for every byte stream and every way it arrives, the requests the handler reads are a prefix of what decoding the whole stream yields; when every read brings bytes and every request is within the limits, they are those up to the first reply that is not written or takes the connection, all of them when there is none; the stream reached, the handler's own reply and the reads account for the ending, its error page is the one written, and the read buffer stays within its initial length or twice the bound |
| HttpServer.Server.ServeOne | modules/gogohttp/server.go:176-322 | one turn dispatches exactly the next decoded request, takes the handler's next reply and leaves the stream behind the request, or writes the page whose limit or parse error the stream shows, or ends on nothing or on a broken read; the buffer length afterwards |
| HttpServer.Server.ReadRequest | modules/gogohttp/server.go:188-272 | head and body as the handler reads them through their slices are the decoder's next request, though the buffer was regrown and re-read in between; each stop with the size test or parse error behind its status |
| HttpServer.Server.ReadHead | modules/gogohttp/server.go:188-226 | parsing again after every partial read ends with the parse of the whole stream; a refusal has the status of the parse error, a limit the test that fired, a loss a failed or missing read; the buffer grows within the bound, and only for a head longer than it |
| HttpServer.Server.ReadBody | modules/gogohttp/server.go:246-271 | the head's bytes stay in the old buffer while the body is read; the buffer length on every path, which may pass MaxReadBuf; when it stops and why |
| HttpServer.TwoLargeRequests | modules/gogohttp/server.go:246-271 | every connection that brings a request of 40000 and one of 50000 bytes, within the limits and undisturbed, serves both and ends with a buffer of 80000 under the bound of 65536 |
| HttpServer.TakenIsServed | modules/gogohttp/server.go:188-272 | a turn that loses no bytes serves a request within the limits |
| HttpLargeRequests.PassTheBound | modules/gogohttp/server.go:246-271 | with the default limits, two concrete POST messages arriving in any positive pieces leave that buffer |
| HttpPipelines.MessageDecodes | modules/gogohttp/server.go:188-272 | a printed head with the body it announces is the first request of any stream it starts, body included |
| HttpPipelines.PipelineDecodes | modules/gogohttp/server.go:166-170 | pipelined messages decode to exactly themselves, up to the first that asks to close, and what follows only when none does |
| HttpLargeRequests.LargeStreamDecodes | modules/gogohttp/server.go:188-272 | the two messages are requests of 40000 and 50000 bytes, the first keeping the connection |
| HttpServer.NoneLeft | modules/gogohttp/server.go:188-272 | when every request is within the limits, a connection that ends without a request has none left to serve |
| HttpDecoder.BoundKeptIff | modules/gogohttp/server.go:254-264 | growing for a body keeps the bound exactly when nothing grows or twice the length is within it, and never passes twice the bound |
| HttpDecoder.BoundPassed | modules/gogohttp/server.go:254-264 | sizes that pass the default bound |
| HttpDecoder.LimitIs | modules/gogohttp/response.go:213-224 | which limit stands behind 413, 414 and 431 |
| HttpDecoder.TakenIsNotLimited | modules/gogohttp/server.go:188-272 | a request within the limits meets none of the tests behind 413, 414 and 431 |
| HttpDecoder.EarlyErrorIsLongLine | modules/gogohttp/parser.go:18-35 | the only error before a head is complete is a line without an end in the allowed length, status 414 |
| HttpDecoder.SplitLineRefusedIff | modules/gogohttp/parser.go:18-35 | a line without an end in the allowed length that the whole stream does not refuse: exactly the longest line allowed, ended by CRLF |
| HttpDecoder.RefusedIsNothing | modules/gogohttp/server.go:188-240 | what is refused holds no request the server takes |
| HttpServer.ConnState.Grow | modules/gogohttp/server.go:211-217 | the filled part moves into a larger fresh buffer unchanged |
| HttpServer.ConnState.Fill | modules/gogohttp/server.go:219-223 | a read leaves "buffered plus still to come" unchanged |
| HttpServer.ConnState.Compact | modules/gogohttp/server.go:312-319 | exactly the consumed bytes are gone, pipelined ones are in front |
| HttpServer.SetBody | modules/gogohttp/server.go:272-272 | the body slice and the old head slices together read as one request |
| HttpDecoder.DecodeStep | modules/gogohttp/server.go:166-170 | decoding a stream is its first request followed by decoding the rest, unless that request asked to close |
| HttpGrammar.ParseExtends | modules/gogohttp/parser.go:18-88 | a complete result, request or error, is the same on every extension of the buffer |
| HttpGrammar.ParseMinimal | modules/gogohttp/parser.go:18-88 | a request is found on exactly the bytes it consumed and nothing is complete on fewer |
| HttpGrammar.ParseStable | modules/gogohttp/parser.go:18-105 | two buffers that share the bytes used give the same result |
| HttpGrammar.ParseMovesOn | modules/gogohttp/parser.go:36-79 | a request consumes at least one byte and lies in the buffer, past its first line |
| HttpFraming.AcceptedFraming | modules/gogohttp/parser.go:41-214 | on every accepted request the length is -1, a decimal value below 2^62, or -2 exactly when no framing header, one Content-Length alone, or only chunked codings are present; host and keep-alive are what the header list says |
| HttpFraming.HostIs | modules/gogohttp/parser.go:173-176 | the last Host header gives the host |
| HttpFraming.KeepAliveIs | modules/gogohttp/parser.go:177-184 | the last Connection header that says close or keep-alive decides, without one the version does |
| HttpFraming.AddHeaderFaithful | modules/gogohttp/parser.go:151-214 | a header is refused exactly when it makes the framing headers illegal, and otherwise the flags and fields keep their meaning |
| HttpSpelling.ParsedIffSpelled | modules/gogohttp/parser.go:18-214 | a buffer parses to a request and a length exactly when the request is well formed and those bytes spell it: its request line byte for byte, each header as name, colon, blanks, value, blanks, lines ended by CRLF or LF, within 8192 bytes, 32 headers and 65536 bytes |
| HttpSpelling.ParsedIsSpelled | modules/gogohttp/parser.go:18-214 | every accepted head is such a spelling of the request it yields |
| HttpPrinting.HeaderAccepted | modules/gogohttp/parser.go:151-214 | an accepted header line is the name, colon, blanks, value, blanks of the header it adds, which is well formed |
| HttpPrinting.LineSpelled | modules/gogohttp/parser.go:107-148 | an accepted request line is exactly method, target and version of the request, single spaces between |
| HttpPrinting.LineVerdict | modules/gogohttp/parser.go:107-148 | which error the parts of a request line get, and when none: a method, and then a version |
| HttpPrinting.LineMalformed | modules/gogohttp/parser.go:107-118 | malformed exactly when it has no three parts |
| HttpPrinting.MethodSpelled | modules/gogohttp/parser.go:216-252 | only the exact spelling is taken for a method |
| HttpGrammar.MethodsSpelled | modules/gogohttp/parser.go:216-252 | the nine spellings |
| HttpRefusals.SpelledVerdict | modules/gogohttp/parser.go:36-88 | any spelled head: accepted within the limits with legal framing, 400 when only the framing is illegal, 431 when only the limits are passed |
| HttpRefusals.BadLineRefused | modules/gogohttp/parser.go:32-34 | a complete line that is no request line is refused with 400 |
| HttpRefusals.ChunkedRefused | modules/gogohttp/server.go:235-239 | a chunked request is refused with 400 and no other status |
| HttpRefusals.HeaderMalformedIff | modules/gogohttp/parser.go:151-170 | a header line is malformed exactly when it spells no header |
| HttpBytes.TokenIff | modules/gogohttp/parser.go:308-322 | header names take visible bytes other than the delimiters of RFC 7230 |
| HttpBytes.FoldIff | modules/gogohttp/parser.go:257-273 | two bytes fold alike when equal or the two cases of one letter |
| HttpBytes.EqFoldIff | modules/gogohttp/parser.go:257-273 | names fold alike exactly when they are the same in lower case |
| HttpBytes.NamesSpelled | modules/gogohttp/parser.go:298-306 | the names and values the parser compares with |
| HttpPipelines.ParseUndoesPrint | modules/gogohttp/parser.go:18-214 | for every well-formed request within the limits, parsing its printed form, whatever follows, consumes exactly that form and recovers every field |
| HttpPrinting.AcceptedIsWellFormed | modules/gogohttp/parser.go:18-214 | everything the parser accepts is such a well-formed request |
| HttpRequest.ParseInto | modules/gogohttp/parser.go:18-88 | filling the request object from the buffer reports position, completeness and error as the pure parser does, and its slices read as the parsed request |
| HttpRequest.ParseHeadersInto | modules/gogohttp/parser.go:36-88 | the header loop with its CL and TE flags computes the pure header fold |
| HttpRequest.ParseRequestLineInto | modules/gogohttp/parser.go:107-148 | method, path, query and version slices are the parsed request line's parts |
| HttpRequest.ParseHeaderInto | modules/gogohttp/parser.go:151-214 | one header line stored as slices with its effect on the request |
| HttpRequest.Interpret | modules/gogohttp/parser.go:172-207 | the dispatch on header names: lengths, chunked, host, connection, and the refusals |
| HttpRequest.FindEolIn | modules/gogohttp/parser.go:95-105 | the first line end, CRLF counted as one |
| HttpRequest.EqFoldAscii | modules/gogohttp/parser.go:257-273 | equality up to ASCII case |
| HttpBytes.ParseDecimal | modules/gogohttp/parser.go:279-296 | succeeds exactly on non-empty digit strings whose value stays below the cap, and yields that value without overflow |
| Chunked.StreamDecodes | modules/gogohttp/response.go:159-188 | the chunks of any writes and the trailer decode to the concatenation of the writes and end exactly there, whatever follows |
| Chunked.CutIsNoticed | modules/gogohttp/response.go:159-188 | no proper prefix of a streamed body decodes as a complete one |
| Chunked.DecodeUndoesEncode | modules/gogohttp/response.go:164-180 | chunks in front of any decodable rest add their bytes and their exact length |
| Chunked.DigitsSpelled | modules/gogohttp/response.go:172-173 | sizes are written with lower-case digits and read with either case |
| Chunked.HexRoundTrip | modules/gogohttp/response.go:172-173 | the printed chunk size reads back as the size |
| Chunked.ChunkedWriter.Write | modules/gogohttp/response.go:164-180 | one chunk per non-empty write; after a failure nothing more reaches the connection and every write reports it |
| Chunked.ChunkedWriter.WriteAll | modules/gogohttp/response.go:159-180 | however the writes fare, the wire holds a prefix of the encoding, all of it unless a write failed |
| Chunked.ChunkedWriter.WriteTrailer | modules/gogohttp/response.go:182-188 | no trailer after a failure |
| Chunked.WriteStream | modules/gogohttp/response.go:117-128 | success means head, all chunks and trailer are on the wire; a failing handler leaves no trailer, and when no write is cut exactly the head and its chunks |
| RouteTrie.Trie.Match | modules/router/trie.go:156-211 | the best accepted pattern that matches and its bindings, under the pattern's own names in order, or -1 with untouched captures exactly when none matches; the calls it notes start at the root and are on no node twice |
| RouteTrie.Trie.Walk | modules/router/trie.go:161-211 | below a node: a failed search leaves the capture buffer as it was, a successful one appends the bindings of the best continuation; each call notes its node, and the nodes noted are distinct |
| RouteTrie.Trie.TryLiteral | modules/router/trie.go:183-188 | the literal child, tried first, leaves the captures alone when it fails |
| RouteTrie.Trie.TryParam | modules/router/trie.go:191-199 | a dead end below a parameter drops its capture again |
| RouteTrie.Trie.TryCatchAll | modules/router/trie.go:165-208 | the catch-all takes the remainder, possibly empty, only after the others failed |
| RouteTrie.Trie.Insert | modules/router/trie.go:69-140 | accepts and rejects as judged on the patterns so far, with the routes and nodes each outcome leaves; the array stays a tree |
| RouteTrie.Trie.Descend | modules/router/trie.go:78-131 | one turn of the insertion loop: the error for this segment, or the child for it |
| RouteTrie.Trie.AddNode | modules/router/trie.go:143-146 | appending and linking a node keeps the tree |
| RoutePatterns.BindingNames | modules/router/trie.go:165-208 | a match captures under the names of the pattern's parameters and catch-all, in order |
| RoutePatterns.BindingAt | modules/router/trie.go:191-208 | a parameter captures its segment, a catch-all the rest joined by slashes, each under its name |
| RoutePatterns.ClassifyWritten | modules/router/trie.go:82-131 | the first byte decides the kind of a segment and the rest is its name |
| RoutePatterns.PatternWritten | modules/router/trie.go:75-131 | a pattern is written as its segments that are not empty |
| RoutePatterns.AcceptedIff | modules/router/trie.go:69-140 | exactly which inserts are accepted: positive index, legal segments, agreeing names, no route there yet |
| RouteRuns.RoutesAreAccepted | modules/router/trie.go:69-140 | after any run the routes are exactly the accepted patterns, each with the index of its one accepted insert |
| RouteRuns.BuildAndMatch | modules/router/trie.go:53-211 | any inserts, then a lookup: the best pattern accepted so far and its captures under its names, or no accepted pattern matches |
| RouteRuns.RejectedInsertLeavesName | modules/router/trie.go:82-109 | a concrete rejected insert that makes a later one clash though nothing was accepted |
| RouteRejections.RejectedKeeps | modules/router/trie.go:69-140 | a rejected insert leaves the nodes of the segments before the first refused one, all of them when only the route was there, none for a bad index |
| RouteRejections.ErrorOfSegment | modules/router/trie.go:82-121 | which error a segment gets, from its text, its place and the names known there |
| RouteRejections.KnownIs | modules/router/trie.go:75-146 | the patterns with a node are exactly the prefixes of what the inserts so far left |
| RouteRejections.HarmlessIff | modules/router/trie.go:69-140 | a rejected insert changes nothing exactly when the nodes it leaves were there before |
| RouteRejections.HarmlessDropped | modules/router/trie.go:69-140 | leaving such an insert out of a run changes no later table |
| RouteRejections.RefusedBecauseOf | modules/router/trie.go:82-119 | an acceptable insert is refused because of a rejection exactly when it names a parameter or catch-all otherwise than a node the rejection added |
| RoutePatterns.Precedence | modules/router/trie.go:161-211 | where two patterns part, literal comes before parameter before catch-all, and the end before a catch-all |
| RoutePatterns.BestIsUnique | modules/router/trie.go:161-211 | precedence picks at most one pattern |
| RoutePatterns.SubstituteBindings | modules/router/trie.go:161-230 | putting the captures back into the pattern gives the path's segments, except exactly when the catch-all took one empty segment |
| RoutePatterns.LoneEmptyRemainderExample | modules/router/trie.go:166-230 | two different paths with the same captures |
| TrieNodes.WithChildIsTree | modules/router/trie.go:98-146 | a new child keeps every node's one parent before it and catch-alls childless |
| TrieNodes.PathsDistinct | modules/router/trie.go:143-146 | different nodes stand for different patterns |
| RoutePaths.TrimIs | modules/router/trie.go:216-230 | one slash is taken off each side and no more |
| RoutePaths.SplitPathJoins | modules/router/trie.go:216-230 | splitting a path and joining it again gives the trimmed path |
| RoutePaths.SplitJoin | modules/router/trie.go:216-230 | slash-free segments survive joining and splitting |
| Recency.CacheByLastUse | modules/fastdb/cache.go:136-203 | over every run the row cache's entries stand in the order of their last hits or stores |
| Recency.PagesByLastUse | cmd/main/output_cache.go:94-146 | so do the page cache's |
| Recency.EvictedFirst | modules/fastdb/cache.go:195-202 | what the caps evict was last used before all that stays |
| Lru.Lru.PutLocked | modules/fastdb/cache.go:177-203 | the list becomes the longest prefix of new entry plus old list without its key that fits both caps; the pointer structure stays exact |
| Lru.Lru.EvictLocked | cmd/main/output_cache.go:139-145 | the eviction loop trims to that prefix, counts what it evicts, and never meets an empty list |
| Lru.Lru.InvalidateLocked | modules/fastdb/cache.go:233-242 | whatever order the bucket is visited in while it shrinks, what is left is the order-preserving filter by table |
| Lru.Lru.RemoveLocked | cmd/main/output_cache.go:217-238 | one position leaves list, map, index and byte count together |
| Lru.Lru.Unlink | modules/fastdb/cache.go:329-339 | the neighbours' links close over the removed node |
| Lru.Lru.MoveToFrontLocked | cmd/main/output_cache.go:196-215 | the node is spliced out and put in front |
| Lru.Lru.PushFrontLocked | modules/fastdb/cache.go:296-306 | the node becomes the head, and the tail of an empty list |
| Lru.Lru.DropFromIndex | modules/fastdb/cache.go:341-348 | the key leaves the buckets of its tables, empty buckets go |
| Lru.Lru.AddToIndex | cmd/main/output_cache.go:128-135 | the key joins the bucket of every table it reads |
| Lru.Lru.FlushLocked | cmd/main/output_cache.go:160-166 | everything is empty and consistent |
| LruItems.TrimIsLongestFit | cmd/main/output_cache.go:139-145 | trimming yields a prefix that fits both caps, and every longer prefix does not |
| LruItems.IndexedAfterRemove | modules/fastdb/cache.go:341-348 | the reverse index stays the exact inverse of the table lists, without empty buckets, under removal |
| LruItems.IndexedAfterAdd | modules/fastdb/cache.go:188-195 | and under insertion |
| LruItems.DropByReaders | modules/fastdb/cache.go:233-242 | dropping the keys of a table's bucket is filtering by table |
| QueryCache.Pool.QueryEach | modules/fastdb/fastdb.go:286-319 | answer and cache afterwards as specified: hit on the very same text, miss with snapshot and store, uncached when unattributable |
| QueryCache.Pool.QueryDirect | modules/fastdb/fastdb.go:324-385 | rows visited until one visit fails; the rows as visits left them |
| QueryCache.Pool.VisitCached | modules/fastdb/fastdb.go:295-302 | cached rows are visited in place |
| QueryCache.Pool.HookedWrite | modules/fastdb/invalidate.go:58-74 | the table changes, then the cache forgets its readers |
| QueryCache.Cache.Get | modules/fastdb/cache.go:139-160 | promotes and returns the entry exactly on a hit |
| QueryCache.Cache.Put | modules/fastdb/cache.go:165-203 | stores unless a table is bypassed |
| QueryCache.Cache.InvalidateTable | modules/fastdb/cache.go:210-243 | counts the write, perhaps starts a bypass, drops the readers |
| QueryCache.Cache.CountWrite | modules/fastdb/cache.go:218-231 | the window, counter and bypass deadline after a write |
| QueryCache.Cache.TablesFor | modules/fastdb/cache.go:119-134 | memoised extraction is extraction |
| QueryCache.Cache.FlushAll | modules/fastdb/cache.go:247-258 | entries go, write statistics stay |
| QuerySpec.StoredThenHit | modules/fastdb/fastdb.go:286-317 | after a query answered without error an entry that fits is in front and the next query hits it |
| QuerySpec.NotStored | modules/fastdb/fastdb.go:286-317 | failed queries and statements that cannot be attributed leave the cache alone |
| QuerySpec.HitIgnoresDatabase | modules/fastdb/fastdb.go:295-303 | a hit does not look at the database |
| QuerySpec.VisitsAre | modules/fastdb/fastdb.go:295-303 | rows are visited in order, each once, up to the first visit that fails; its error and state are the outcome, it is not counted, and every row visited is left as its visit leaves it |
| QuerySpec.DirectIs | modules/fastdb/fastdb.go:324-381 | a failed visit's error comes before the statement's own |
| QuerySpec.QueryTransparent | modules/fastdb/fastdb.go:286-319 | on a coherent cache a query that leaves its rows alone is answered as directly, and the cache stays coherent |
| QuerySpec.WriteKeepsCoherent | modules/fastdb/invalidate.go:58-74 | after a write and its invalidation every entry is right for the new database, given attribution of the statements asked |
| QueryRuns.CacheIsInvisible | modules/fastdb/fastdb.go:286-319 | over every run of queries, hooked and foreign writes and flushes each query that no foreign write without a flush precedes gets the rows, count and error of a direct query on the database of that moment, for any hash; assumed are attribution of the run's statements and that its queries leave the rows delivered alone |
| QueryRuns.NoEntryReadsBypassed | modules/fastdb/cache.go:172-176 | with a clock that does not go back, no cached entry ever reads a bypassed table |
| QueryRuns.BypassedMeansBurst | modules/fastdb/cache.go:210-231 | a table is bypassed only after more writes than the threshold within one window, the last less than the cool-down ago |
| QueryRuns.BurstMeansBypass | modules/fastdb/cache.go:209-231 | in every run twice the threshold of writes to a table inside one window's span start a bypass of it |
| WriteRate.WindowIs | modules/fastdb/cache.go:209-231 | window start, count and deadline after every write, from the write times |
| WriteRate.BurstStartsBypass | modules/fastdb/cache.go:209-231 | after one of twice the threshold of writes inside a span no longer than the window, the table is bypassed |
| WriteRate.StraddledBurst | modules/fastdb/cache.go:209-231 | one fewer need not do: three writes over a threshold of two, and no bypass |
| WriteRate.CountersMean | modules/fastdb/cache.go:218-231 | what window start, counter and deadline say about the writes so far |
| QueryReplay.Replay | modules/fastdb/fastdb.go:286-319 | the pool object driven through any run gives those answers |
| QueryFailures.DisturbedIff | modules/fastdb/fastdb.go:295-316 | after a stored answer the next query for the statement is right exactly when the first left the rows alone |
| QueryFailures.StaleIff | modules/fastdb/invalidate.go:58-74 | after a write to a table not extracted for a cached statement, its answer is right exactly when the write left its rows unchanged |
| QueryFailures.UnsettledIff | modules/fastdb/invalidate.go:228-240 | between a foreign write and the next flush a cached statement is answered rightly exactly when its rows did not change |
| CacheFailures.RenderedRowLosesColumn | cmd/main/holes.go:196-204 | a `_params` column rendered with bindings is missing from the next query's answer |
| CacheFailures.OtherCaseIsStale | modules/fastdb/invalidate.go:138-147 | a table spelled in another case stays cached through a write to it |
| CacheFailures.QualifiedIsStale | modules/fastdb/invalidate.go:138-147 | a table named with its schema stays cached through a write to it |
| HoleBlobs.BlobRoundTrip | cmd/main/holes.go:76-133 | reading a written blob gives its holes exactly when every template parses and the last record has ten bytes left in the section; which of the two refusals it gets otherwise |
| HoleBlobs.CutBlobRefused | cmd/main/holes.go:81-109 | a blob cut anywhere behind its count is refused, one without its count has no holes |
| HoleBlobs.LayoutExample | cmd/build/v2_compiler.go:285-313 | the layout byte by byte |
| HoleBlobs.ShortRecordRefused | cmd/main/holes.go:88-91 | a concrete legal blob that is refused |
| HoleBlobs.Compiler.AppendHoleBlob | cmd/build/v2_compiler.go:285-313 | the bytes appended and the 32-bit offset, which is where they start while the section is below 4 GiB; offset 0 reserved |
| HoleBlobs.ReadHoles | cmd/main/holes.go:81-133 | the cursor loop with its bounds checks is the recursive reading of records |
| HoleBlobs.WriteThenRead | cmd/build/v2_compiler.go:285-313 | a route's holes are readable from their 32-bit offset after later routes were appended |
| PageSplice.AssembleInserts | cmd/main/holes.go:182-217 | with successful renderings the loop yields the body with each rendering inserted at its position exactly when positions never go back and stay inside, and panics otherwise |
| PageSplice.InsertedAt | cmd/main/holes.go:182-217 | where each rendering stands in the page |
| PageSplice.CutUndoesInsert | cmd/main/holes.go:182-217 | cutting the renderings out gives the body back |
| PageSpec.BlobToPage | cmd/main/holes.go:156-224 | from written holes to the page: the static body with every rendering in its place, and back |
| PageSpec.RestoresIff | cmd/main/holes.go:196-204 | a row survives rendering exactly when there are no bindings or it has no `_params` column |
| PageSpec.UndisturbedIff | cmd/main/holes.go:196-204 | rendering rows without error leaves them alone exactly when there are no bindings or no row has a `_params` column |
| PageSpec.BodySliceIs | cmd/main/holes.go:157-158 | the body is the bytes at the offset, and slicing panics exactly when they end past the mapping or past 32 bits |
| PageSpec.ComposeTransparent | cmd/main/holes.go:156-224 | through a coherent row cache a page is what the current database makes it |
| PageSpec.ParamsMapIs | cmd/main/holes.go:170-176 | the map has exactly the captured names, each with the value captured last under it |
| PageSpec.EachParam | cmd/main/holes.go:170-176 | with distinct names every capture is found under its name |
| PageSpec.ParamOfSegment | cmd/main/holes.go:170-176 | a template finds under a parameter's name the path's segment, under the catch-all's the rest |
| PageSpec.ContextIs | cmd/main/holes.go:185-204 | a template sees the row's columns and, with bindings, that map under `_params` |
| PageCache.CollectParams | cmd/main/holes.go:170-176 | the loop builds that map |
| PageSpec.EntrySizeIs | cmd/main/output_cache.go:241-254 | an entry weighs its three bodies and its table names |
| PageSpec.ServedFirstTaken | cmd/main/output_cache.go:302-315 | served is the first of brotli, gzip and identity that the client takes and is not empty, with its own head |
| PageSpec.UnionIs | cmd/main/output_cache.go:282-300 | the page's tables are those of its holes, each once |
| PageSpec.UnionInOrder | cmd/main/output_cache.go:282-300 | the union is the first uses of the holes' tables in order |
| PageSpec.ServeTransparent | cmd/main/output_cache.go:395-439 | a request through fresh caches gets what database, bindings and encodings call for, and leaves them fresh |
| PageSpec.UnreadTable | cmd/main/output_cache.go:156-179 | a page does not change with a table outside its union |
| PageSpec.WriteKeepsFresh | modules/fastdb/invalidate.go:58-74 | after a write and its notification every cached page is right for the new database |
| PageSpec.PlainAsksToldApart | cmd/main/output_cache.go:254-270 | with a hash free of collisions, requests whose values lack the byte 0 share a key only when they ask for the same page |
| PageSpec.RoutedAsksToldApart | cmd/main/output_cache.go:254-270 | requests that a route table gives manifest, entry and pattern, over paths without the byte 0, share a key only when they ask for the same page |
| PageSpec.NulSharesKey | cmd/main/output_cache.go:254-270 | two paths of one route that share their key under every hash |
| BindingText.HashBindings | cmd/main/output_cache.go:258-270 | the writing loop hashes names and values, each binding ended by the byte 0, and no bindings give 0 |
| BindingText.TextTellsIff | cmd/main/output_cache.go:258-270 | the hashed text tells all bindings of a route apart exactly when the route captures at most one value |
| BindingText.PlainTextsDiffer | cmd/main/output_cache.go:258-270 | bindings with the same names and without the byte 0 in a value have different texts |
| BindingText.Ambiguous | cmd/main/output_cache.go:258-270 | the ending byte moves between neighbouring values without changing the text |
| BindingText.TwoPathsOneText | cmd/main/output_cache.go:258-270 | two paths of the route ":a/:b" whose captures have one text |
| PageSpec.SharedKeyServesFirst | cmd/main/output_cache.go:395-404 | two requests with one key are both served the first one's page |
| PageSpec.ReadAttributes | cmd/main/holes.go:109-124 | holes read from a blob carry the tables extracted from their SQL |
| PageLoad.LoadHoles | cmd/main/main.go:375-405 | the pre-parsing loop: routes without holes and unreadable blobs skipped, an offset past the section panics |
| PageLoad.LoadedIs | cmd/main/main.go:375-405 | loaded are exactly the readable routes with holes, each key with the holes of its last route |
| PageLoad.LoadPanicsIff | cmd/main/main.go:375-405 | loading panics exactly when an offset lies past its section |
| PageLoad.LoadedAttributed | cmd/main/main.go:375-405 | a loaded site's holes carry the tables extracted from their SQL |
| PageLoad.ReplayLoaded | cmd/main/output_cache.go:395-439 | the application over a loaded site, attributing by the FROM and JOIN scan, answers every request of a run as due, foreign writes flushed |
| PageCache.App.ComposeHoleBodyCached | cmd/main/output_cache.go:395-439 | response, row cache and page cache after a request |
| PageCache.App.StorePage | cmd/main/output_cache.go:411-438 | stored under the union of tables when there is one, identity only otherwise |
| PageCache.App.ComposeHoleBody | cmd/main/holes.go:156-224 | the composing loop with its early error and panic exits, each query through the row cache |
| PageCache.App.FillHole | cmd/main/holes.go:185-214 | one hole: once without SQL, per row otherwise |
| PageCache.App.HolesFor | cmd/main/holes.go:160-168 | parsed holes, or the blob on the cold path |
| PageCache.App.Write | modules/fastdb/invalidate.go:58-74 | table, row cache and page cache after a hooked write, in that order |
| PageCache.App.Flush | modules/fastdb/invalidate.go:283-289 | both layers empty |
| PageCache.App.Reload | cmd/main/main.go:169-175 | another site with an empty page cache over the same row cache |
| PageCache.OutputCache.Get | cmd/main/output_cache.go:94-105 | promotes and returns exactly the entry under the key |
| PageCache.OutputCache.Put | cmd/main/output_cache.go:113-146 | replaces, indexes, trims; nothing without tables |
| PageCache.OutputCache.Invalidate | cmd/main/output_cache.go:156-180 | the filter by table, everything for the empty name |
| PageCache.UnionTables | cmd/main/output_cache.go:282-300 | None exactly when some hole has none, else the union |
| AcceptedEncodings.ContainsToken | cmd/main/output_cache.go:353-381 | true exactly when the token stands somewhere between separators |
| AcceptedEncodings.FoundIffListed | cmd/main/output_cache.go:353-381 | in a printed list of codings a token is found exactly when it is listed, whatever its parameters say |
| AcceptedEncodings.AcceptIs | cmd/main/output_cache.go:321-332 | the first header whose name is Accept-Encoding in any case decides, without one nothing compressed is accepted |
| AcceptedEncodings.AcceptsCompressedEncodings | cmd/main/output_cache.go:321-332 | the first Accept-Encoding header decides |
| AcceptedEncodings.PickHoleVariant | cmd/main/output_cache.go:306-315 | brotli, gzip, identity, skipping empty bodies |
| PageRuns.CachesAreInvisible | cmd/main/output_cache.go:395-439 | over every run of requests, hooked and foreign writes, flushes and reloads each request that no foreign write without a flush precedes gets the body and head its database, bindings and encodings call for, never what the caches hold; the assumptions are about the run's own statements and requests |
| PageRuns.CachesStayFresh | modules/fastdb/invalidate.go:58-74 | both layers are right for the current database after every prefix of a run, foreign writes flushed |
| PageRuns.Replay | cmd/main/output_cache.go:395-439 | the application object driven through any run gives those responses |
| SqlTables.BytesSpelled | modules/fastdb/invalidate.go:208-219 | which bytes make up names and blanks, and what lower-casing does |
| SqlWords.KeywordIff | modules/fastdb/invalidate.go:169-184 | FROM and JOIN in any case, nothing else |
| SqlTables.ExtractTables | modules/fastdb/invalidate.go:107-150 | the scanning loop, which always advances, computes the recursive scan |
| SqlTables.NextKeyword | modules/fastdb/invalidate.go:188-207 | the least position where the word stands alone, -1 when there is none |
| SqlTables.FindFromOrJoin | modules/fastdb/invalidate.go:169-184 | the least position from an offset on where FROM or JOIN stands alone, -1 when there is none |
| SqlWords.TablesAreWordTables | modules/fastdb/invalidate.go:107-150 | for every statement the scan yields what its list of words says |
| SqlWords.SelectTables | modules/fastdb/invalidate.go:94-150 | for every SELECT printed from clauses with bare tables: the distinct names in order of first use |
| SqlWords.TablesNeverEmpty | modules/fastdb/invalidate.go:107-150 | no statement yields an empty, non-nil list |
| SqlWords.SchemaNotStripped | modules/fastdb/invalidate.go:138-147 | a SELECT from a schema-qualified table yields the schema |
| SqlWords.PlainlyTables | modules/fastdb/invalidate.go:107-150 | a SELECT from one table, whatever separates the next word, yields that table |
| SqlWords.NotCte | modules/fastdb/invalidate.go:155-162 | only a statement whose first word is WITH is taken for a common table expression |
| SqlWords.ComplexGivesUp | modules/fastdb/invalidate.go:127-133 | a parenthesis, double quote, bracket or backtick in a table's place makes any statement uncacheable |
| SqlWords.OtherByteGoesOn | modules/fastdb/invalidate.go:134-137 | any other byte there names nothing and the clauses behind it are read |
| SqlWords.CteIff | modules/fastdb/invalidate.go:155-162 | exactly which statements open a common table expression, and that these are uncacheable |
| TableNames.AddNewOrder | modules/fastdb/invalidate.go:145-147 | names come out in the order of their first uses |
| Subscriptions.PublishedExactly | modules/fastdb/subscribe.go:31-77 | in every interleaving the list holds, once each and in order, exactly the subscriptions whose removal has not been stored |
| Subscriptions.ClosedIsGone | modules/fastdb/subscribe.go:54-77 | in every interleaving what was closed, its Close at an end, is out of the list; what was subscribed and not closed is in it |
| Subscriptions.CloseStarts | modules/fastdb/subscribe.go:54-57 | the first Close of a subscription is under way, any later one changes nothing |
| Subscriptions.CloseRemoves | modules/fastdb/subscribe.go:58-77 | with the mutex free two steps take the subscription out and nothing else |
| Subscriptions.CloseCanEnd | modules/fastdb/subscribe.go:54-77 | from every reachable state a Close is at most three moves from the removal, whoever holds the mutex |
| Subscriptions.ReloadCanEnd | cmd/main/main.go:169-183 | a reload that retires a state can end, that state's subscription out of the list |
| Subscriptions.SubscribeAdds | modules/fastdb/subscribe.go:31-51 | a Subscribe puts its subscription at the end of the list |
| Subscriptions.NotifiedOnce | modules/fastdb/subscribe.go:82-90 | a notification calls its snapshot in order, each member once, all of them by its end |
| Subscriptions.LiveIsSubscribed | cmd/main/main.go:169-183 | the live state's page cache is in the list through every reload, so every notification calls it |
| Subscriptions.FailedLoadStays | cmd/main/main.go:327-366 | a reload that fails after subscribing leaves its subscription in the list for good |
| Subscriptions.OwnedAccountedFor | cmd/main/main.go:169-183 | a subscription of a reload not yet removed is live, built, being added, being retired, or left by a failed reload |
| Subscriptions.ReloadsLeave | cmd/main/main.go:169-183 | which subscriptions of reloads are in the list at any time; while none is under way, exactly the live one and those of failed reloads |
| Subscriptions.FailedReload | cmd/main/main.go:169-183 | the run in which a reload over a live state subscribes and fails: both subscriptions stay in the list |
| Subscriptions.CopyWithout | modules/fastdb/subscribe.go:70-75 | Close's copy loop is the order-preserving removal |

## Left out

- Interleavings inside a cache miss: a write between a query and the store of its rows, or between composing a page and storing it, is not seen by the code either; the transparency theorems are about atomic steps.
- HookedWrite: one table per write, hook and row change as one step; the hook's position before commit and a later rollback are not modelled.
- Flush: the data_version watcher's comparison of values read on arbitrary connections is not modelled; a foreign write and a flush of both layers are steps that may happen at any time.
- ServeConn: deadlines, connection pooling, the write side of responses and the 500 page after a handler panic are left out; a handler is a reply, and it does not change the request it was given.
- ParseExtends: line-too-long errors, which are reported as not complete, are outside it: a request line of exactly the limit split between CR and LF by a read is refused, and HttpDecoder.SplitLineRefusedIff says that this is the only such line.
- QueryDirect: a statement's rows are a function of the database; SQLite itself, statement caching, and a visitor's leftovers in the row map that uncached queries reuse are left out.
- Put: the size estimate of rows, the hash of SQL text and the 64-bit FNV hash of the bindings' text are parameters; every theorem holds for all of them, the last under the stated injectivity.
- ReadHoles: template parsing is a yes or no per template text; the cache of parsed templates by a 64-bit hash of their text is left out.
- ComposeHoleBody: text/template, gzip and brotli are opaque functions; buffer pooling is left out.
- ComposeHoleBodyCached: the branch without a page cache is left out, since every loaded state has one.
- ExtractTables: lower-casing is ASCII, on strings of bytes; text whose lower case has another length is outside the model, and comma joins contribute their first table only.
- LoadFails: a first load that fails ends the process (cmd/main/main.go:141-144), so the step needs a live state and such a run just stops before it.
- Reload: the header registry, swapped in a separate store, and the rest of loading a state are left out.
- Subscribe: nil callbacks and a missing default pool, which yield no subscription, are left out.
- Host lookup, method masks, middleware, static variants, file serving, metrics and the build pipeline up to the hole blob would add only easy members or need files that are not part of this model.
