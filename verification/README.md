# Verification of the tunnel and its configuration store

This project models, in Dafny, the parts of the repository in which correctness is hardest to see, and proves what
they are for:

- the red-black tree of the native tunnel, pointer by pointer (`RbShape`, `RbTree`, `SearchTree`, `Dictionary`), and
  what is built on it: the SOCKS5 authenticator (`Authenticator`) and the mapped-DNS cache (`LinkedList`,
  `Recency`, `CacheIndex`, `MappedDns`) with the DNS server in front of it (`DnsMessages`, `DnsServer`, `DnsHandler`,
  `DnsAnswers`, `DnsPointers`, `DnsReplies`), section 4.1 of RFC 1035;
- the YAML event pipeline: dumper (`YamlGraph`, `YamlNames`, `YamlDumper`, `YamlDumped`), loader (`YamlLoader`,
  `YamlLoaderSafety`, `YamlLoaded`), their round trip (`YamlRoundTrip`), the event grammar (`YamlGrammar`, `YamlTrees`,
  `YamlDumpGrammar`), the parser (`YamlSteps`, `YamlParser`), that it keeps the grammar (`YamlLanding`), that events
  tell what tokens say (`YamlTells`), that printed documents are parsed exactly (`YamlSources`, `YamlPrinted`,
  `YamlStreams`, `YamlPairs`) and loaded exactly (`YamlConfig`), the automaton of the emitter (`YamlQueue`,
  `YamlEmitStates`, `YamlEmitter`), and the transcoding of reader and writer (`Unicode`, `YamlReader`, `YamlWriter`,
  `YamlTranscoding`);
- the SOCKS5 handshake of client and server (`Socks5Messages`, `Socks5`, `Socks5Safety`, `Socks5Outcome`,
  `Socks5Auth`, `Socks5Wire`), sections 3, 4 and 6 of RFC 1928 and section 2 of RFC 1929;
- the relays: the ring buffer and the TCP splice loop (`RingBuffer`, `TcpSplice`), datagrams in a TCP stream
  (`UdpInTcp`);
- the configuration store of the app: VLESS links (`Text`, `Numerals`, `VlessUri`, `LinkReading`), the grid of CDN
  configurations (`ConfigGrid`, `GridExactly`, `GridLinks`) and the repository (`ConfigRepository`).

`dafny verify dfyconfig.toml` checks the whole project.

## How the models are built

- Code that updates objects in place is a class with the same fields; its methods have the branches and loops of the
  source and are proved against functions or predicates of the abstract state, about which the theorems are. Tree
  nodes and list nodes are heap objects with parent, left, right, colour, or next and prev; ghost fields hold the
  shape of the tree and the sequence of the list.
- Client and server of the handshake are two programs over two byte channels. A step is one read, one write or one
  action of one side, so a run is any interleaving. A read takes exactly the bytes it asks for or fails. Whether
  addresses resolve and connects succeed is part of the setup.
- Sockets, the TCP stack, its callbacks and the chunks in which bytes arrive are parameters; the theorems hold for
  all of them.
- Allocation succeeds. Byte and length fields are cut where the source cuts them; other integers are unbounded.

## Model

| member | source | states |
|---|---|---|
| `RbTree.Tree.Insert` | android/app/src/main/jni/hev-socks5-tunnel/src/core/src/hev-rbtree.c:194-333 | Linking a red leaf at an empty link and restoring the colours leaves a red-black tree (black root, no red parent of a red node, equal black heights, consistent parent pointers) whose nodes in order are the old ones with exactly the new node added at the link |
| `RbTree.Tree.InsertColor` | android/app/src/main/jni/hev-socks5-tunnel/src/core/src/hev-rbtree.c:194-333 | From any tree that is red-black but for one red leaf below a red parent, the fix-up loop ends with a red-black tree of the same nodes in the same order |
| `RbTree.Tree.Rotate` | android/app/src/main/jni/hev-socks5-tunnel/src/core/src/hev-rbtree.c:78-105 | A rotation turns exactly the links of the two nodes, of the subtree between them and of the parent, and changes no other cell |
| `RbTree.Tree.Erase` | android/app/src/main/jni/hev-socks5-tunnel/src/core/src/hev-rbtree.c:628-635 | Erasing any node of a red-black tree leaves a red-black tree whose nodes in order are the old ones with exactly that node taken out |
| `RbTree.Tree.Unlink` | android/app/src/main/jni/hev-socks5-tunnel/src/core/src/hev-rbtree.c:351-444 | Unlinking a node, with the successor put in its place if it has two children, keeps all other nodes in order and leaves the tree red-black or one black node short at the reported place |
| `RbTree.Tree.EraseColor` | android/app/src/main/jni/hev-socks5-tunnel/src/core/src/hev-rbtree.c:450-626 | From a tree that is one black node short at an empty link, the fix-up loop ends with a red-black tree of the same nodes in the same order |
| `RbTree.Tree.Extreme` | android/app/src/main/jni/hev-socks5-tunnel/src/core/src/hev-rbtree.c:168-192 | first and last give the first and the last node in order, or null for an empty tree |
| `RbTree.Tree.Step` | android/app/src/main/jni/hev-socks5-tunnel/src/core/src/hev-rbtree.c:107-166 | next and prev of the node at a position give the node at the next or the previous position, or null at the end |
| `RbShape.HeightBound` | android/app/src/main/jni/hev-socks5-tunnel/src/core/src/hev-rbtree.c:194-635 | 2 to the height of a red-black tree of n nodes is at most the square of n + 1, so the height is at most 2 log2 (n + 1) |
| `SearchTree.Search` | android/app/src/main/jni/hev-socks5-tunnel/src/core/src/hev-socks5-authenticator.c:104-131 | The descent finds the node of a key, or ends at the one empty link where the key belongs in the (decreasing) order and no node has the key |
| `Ordering.LessOrder` | android/app/src/main/jni/hev-socks5-tunnel/src/core/src/hev-socks5-authenticator.c:45-57 | Both key orders, strcmp and length before bytes, are strict and total |
| `Authenticator.Authenticator.Add` | android/app/src/main/jni/hev-socks5-tunnel/src/core/src/hev-socks5-authenticator.c:39-70 | A new name joins the finite map of users, a known one is refused and changes nothing |
| `Authenticator.Authenticator.Del` | android/app/src/main/jni/hev-socks5-tunnel/src/core/src/hev-socks5-authenticator.c:72-102 | Exactly the user of that name leaves the map; the result says whether there was one |
| `Authenticator.Authenticator.Get` | android/app/src/main/jni/hev-socks5-tunnel/src/core/src/hev-socks5-authenticator.c:104-131 | The user that the map has for the name, or none |
| `Authenticator.Authenticator.Clear` | android/app/src/main/jni/hev-socks5-tunnel/src/core/src/hev-socks5-authenticator.c:133-145 | Erasing the first node until none is left empties the map and the tree |
| `LinkedList.List.AddTail` | android/app/src/main/jni/hev-socks5-tunnel/src/misc/hev-list.c:14-25 | The node joins the end of the doubly linked list and the links spell out the new sequence |
| `LinkedList.List.Del` | android/app/src/main/jni/hev-socks5-tunnel/src/misc/hev-list.c:27-39 | Exactly the node leaves the list and the links spell out the sequence of the others |
| `MappedDns.MappedDns.constructor` | android/app/src/main/jni/hev-socks5-tunnel/src/hev-mapped-dns.c:273-294 | An empty cache whose tree, list and records agree |
| `MappedDns.MappedDns.Find` | android/app/src/main/jni/hev-socks5-tunnel/src/hev-mapped-dns.c:98-150 | The cache takes the step of the abstract recency cache: a known name is moved to the end of the list, a new one gets the next free slot or that of the least recently used name; tree, list and records still hold the same entries, and the result is the slot of the name |
| `MappedDns.MappedDns.Lookup` | android/app/src/main/jni/hev-socks5-tunnel/src/hev-mapped-dns.c:253-271 | The name that has the slot in the host part of the address, which is thereby used; the network part is not looked at |
| `MappedDns.MappedDns.Run` | android/app/src/main/jni/hev-socks5-tunnel/src/hev-mapped-dns.c:98-150 | Any run of finds and lookups leaves the three structures in agreement in the state of the same run of the abstract cache |
| `MappedDns.MappedDns.FindThenLookup` | android/app/src/main/jni/hev-socks5-tunnel/src/hev-mapped-dns.c:98-150 | The address that a find gives to a name leads a later lookup back to the name, whatever is used in between, as long as the name stays live |
| `Recency.LiveAreMostRecent` | android/app/src/main/jni/hev-socks5-tunnel/src/hev-mapped-dns.c:98-150 | After any run the live names are the max most recently used distinct ones, in order of last use |
| `Recency.LivesUntilMaxOthers` | android/app/src/main/jni/hev-socks5-tunnel/src/hev-mapped-dns.c:98-150 | A name is live if and only if fewer than max other distinct names were used since its last use |
| `Recency.StaysWhileFew` | android/app/src/main/jni/hev-socks5-tunnel/src/hev-mapped-dns.c:98-150 | From a find on, the name stays live throughout as long as fewer than max other names are used |
| `Recency.LookupFindsName` | android/app/src/main/jni/hev-socks5-tunnel/src/hev-mapped-dns.c:253-271 | A lookup of the slot that a find returned yields the name for as long as it is live |
| `CacheIndex.TouchIndexed` | android/app/src/main/jni/hev-socks5-tunnel/src/hev-mapped-dns.c:114-118 | Moving a list node to the end keeps tree, list and records in agreement |
| `CacheIndex.AddIndexed` | android/app/src/main/jni/hev-socks5-tunnel/src/hev-mapped-dns.c:121-130 | A new entry in the next free slot keeps the three structures in agreement and names and slots in bijection |
| `CacheIndex.ReplaceIndexed` | android/app/src/main/jni/hev-socks5-tunnel/src/hev-mapped-dns.c:131-149 | Replacing the first entry of the list by a new one in its slot keeps the three structures in agreement |
| `YamlDumper.AnchoredTallied` | android/app/src/main/jni/hev-socks5-tunnel/third-part/yaml/src/dumper.c:206-238 | After the first walk every node has been counted as often as it is met, and exactly the nodes met twice or more have an anchor, all different |
| `YamlNames.AnchorNamesDiffer` | android/app/src/main/jni/hev-socks5-tunnel/third-part/yaml/src/dumper.c:247-257 | Different anchor numbers print as different names, also beyond three digits |
| `YamlDumper.Dumper.AnchorNode` | android/app/src/main/jni/hev-socks5-tunnel/third-part/yaml/src/dumper.c:206-238 | The recursion that counts references does what the walk over the graph says, and ends on cyclic graphs |
| `YamlDumper.Dumper.DumpNode` | android/app/src/main/jni/hev-socks5-tunnel/third-part/yaml/src/dumper.c:263-393 | The recursion that issues events does what the walk says: a node is issued when first met and as an alias ever after |
| `YamlDumper.Dumper.Dump` | android/app/src/main/jni/hev-socks5-tunnel/third-part/yaml/src/dumper.c:111-160 | A document becomes one document of the stream, opened if need be; an empty one closes the stream |
| `YamlLoader.Loader.LoadNodes` | android/app/src/main/jni/hev-socks5-tunnel/third-part/yaml/src/loader.c:216-257 | The event loop of the loader computes the fold of the loading steps up to the end of the document, an error or a failed assertion; what the fold makes of a document is said by YamlLoaded.LoadsExactly |
| `YamlLoader.Loader.AddNode` | android/app/src/main/jni/hev-socks5-tunnel/third-part/yaml/src/loader.c:298-344 | A node joins the open sequence, or becomes the value of the last pair or the key of a new one in the open mapping |
| `YamlLoader.Loader.RegisterAnchor` | android/app/src/main/jni/hev-socks5-tunnel/third-part/yaml/src/loader.c:263-292 | An anchor that is already there is an error, a new one is registered |
| `YamlRoundTrip.DumpThenLoad` | android/app/src/main/jni/hev-socks5-tunnel/third-part/yaml/src/dumper.c:206-393 | Loading the events that were dumped for any graph with in-range indices, shared and cyclic nodes included, succeeds and gives the reachable part of the graph, renumbered by first meeting, with all collections closed |
| `YamlRoundTrip.MeetsReachable` | android/app/src/main/jni/hev-socks5-tunnel/third-part/yaml/src/dumper.c:263-294 | The walk meets exactly the nodes reachable from the root, each once, the root first |
| `YamlRoundTrip.TagsKept` | android/app/src/main/jni/hev-socks5-tunnel/third-part/yaml/src/loader.c:374-391 | The document that is loaded from what was dumped has the tags of the nodes that were met if and only if none of these is "!" |
| `YamlRoundTrip.BangTag` | android/app/src/main/jni/hev-socks5-tunnel/third-part/yaml/src/loader.c:374-391 | A document of one scalar with the tag "!" is loaded with another tag |
| `YamlParser.ParseStream` | android/app/src/main/jni/hev-socks5-tunnel/third-part/yaml/src/parser.c:169-304 | For every token sequence the run ends; the events are those that the machine makes until it breaks or the stream has ended, which is what the result says; they follow the event grammar, to its end if the run is complete |
| `YamlParser.Parser.Parse` | android/app/src/main/jni/hev-socks5-tunnel/third-part/yaml/src/parser.c:225-304 | One call is one step of the machine; it fails, or issues an event that the grammar allows where the parser stands and lands where it leads, with the state and mark stacks in step; the alias, anchor, tag and scalar tokens it consumes are exactly what the event tells, a node left out being the empty plain scalar; and it consumes a token or lowers a rank of at most 2 |
| `YamlParser.Parser.ParseNode` | android/app/src/main/jni/hev-socks5-tunnel/third-part/yaml/src/parser.c:528-717 | A node is issued as the machine says: exactly which event, which tokens are left, and which state it leads to; YamlLanding.NodeLands, YamlTells.NodeTells and YamlPrinted.NodeGoes say what that means |
| `YamlTrees.CompleteStreams` | android/app/src/main/jni/hev-socks5-tunnel/third-part/yaml/src/parser.c:225-304 | The acceptor accepts exactly the streams STREAM-START (DOCUMENT-START tree DOCUMENT-END)* STREAM-END of properly nested trees whose mappings have as many values as keys |
| `YamlTrees.FollowedParts` | android/app/src/main/jni/hev-socks5-tunnel/third-part/yaml/src/parser.c:225-304 | Every stream that the acceptor follows so far is such a stream, cut off |
| `YamlLoaderSafety.NeverAsserts` | android/app/src/main/jni/hev-socks5-tunnel/third-part/yaml/src/loader.c:216-344 | On every event stream that the grammar allows the loader reaches no failing assertion, however far it has read |
| `YamlLoaderSafety.LoadedDocument` | android/app/src/main/jni/hev-socks5-tunnel/third-part/yaml/src/loader.c:461-544 | A loaded document has an empty context stack and a root, every index is in range and every pair has a key and a value |
| `YamlLoaderSafety.ParsedDocumentLoads` | android/app/src/main/jni/hev-socks5-tunnel/third-part/yaml/src/loader.c:184-210 | The same for every document of a parsed stream, whatever follows it |
| `YamlDumpGrammar.DumpedFollows` | android/app/src/main/jni/hev-socks5-tunnel/third-part/yaml/src/dumper.c:263-393 | What is dumped for a document is one node of the event grammar |
| `Socks5Messages.AddrRoundTrip` | android/app/src/main/jni/hev-socks5-tunnel/src/core/src/hev-socks5-misc.c:117-130 | An address says its own length in its first two bytes and reads back as itself |
| `Socks5Safety.RunKeeps` | android/app/src/main/jni/hev-socks5-tunnel/src/core/src/hev-socks5-client.c:25-262 | The invariant of the handshake holds in every state of every run, on channels that may fail at any time; Socks5Wire.ConnectedWire and SentWire say which bytes that are |
| `Socks5Safety.SuccessAgrees` | android/app/src/main/jni/hev-socks5-tunnel/src/core/src/hev-socks5-server.c:474-528 | If both sides succeed, the server acts on exactly the command and address of the client and both channels are read to the last byte |
| `Socks5Outcome.FairOutcome` | android/app/src/main/jni/hev-socks5-tunnel/src/core/src/hev-socks5-client.c:318-394 | On reliable channels, when both sides are through, the server serves if and only if both want the same method, the user is known and the environment lets it act, and the client is connected if and only if it besides accepts the address |
| `Socks5Outcome.Progress` | android/app/src/main/jni/hev-socks5-tunnel/src/core/src/hev-socks5-server.c:474-528 | On reliable channels some step is possible until both sides are through: they never wait for each other |
| `Socks5Outcome.RunsEnd` | android/app/src/main/jni/hev-socks5-tunnel/src/core/src/hev-socks5-client.c:318-394 | No run has more than 18 steps |
| `Socks5Outcome.PipelinedRefinesStandard` | android/app/src/main/jni/hev-socks5-tunnel/src/core/src/hev-socks5-client.c:318-394 | The pipelined and the standard handshake have the same outcome for every setup; what is sent in standard mode is a prefix of what is sent in pipelined mode, and the same on success |
| `Socks5Auth.ActsOnlyForUsers` | android/app/src/main/jni/hev-socks5-tunnel/src/core/src/hev-socks5-server.c:124-239 | With users installed the server connects or binds for nobody who has not sent, right after the greeting, a registered name with its password, whatever bytes arrive and whatever fails |
| `Socks5Auth.CheckUser` | android/app/src/main/jni/hev-socks5-tunnel/src/core/src/hev-socks5-server.c:172-184 | The check of the authenticator makes the decision of the handshake |
| `RingBuffer.RingBuffer.Reading` | android/app/src/main/jni/hev-socks5-tunnel/src/misc/hev-ring-buffer.c:25-45 | The windows hold exactly the bytes that wait to be handed over, in the order they came |
| `RingBuffer.RingBuffer.Writing` | android/app/src/main/jni/hev-socks5-tunnel/src/misc/hev-ring-buffer.c:64-85 | The windows cover exactly the free cells, so bytes in flight or waiting are never overwritten |
| `RingBuffer.RingBuffer.ReadFinish` | android/app/src/main/jni/hev-socks5-tunnel/src/misc/hev-ring-buffer.c:47-52 | The first waiting bytes are in flight, the others still wait |
| `RingBuffer.RingBuffer.ReadRelease` | android/app/src/main/jni/hev-socks5-tunnel/src/misc/hev-ring-buffer.c:54-62 | The first bytes in flight are released, also when the pointers are reset |
| `RingBuffer.RingBuffer.Fill` | android/app/src/main/jni/hev-socks5-tunnel/src/misc/hev-ring-buffer.c:64-85 | Bytes written into the free cells in order change no taken cell |
| `RingBuffer.RingBuffer.WriteFinish` | android/app/src/main/jni/hev-socks5-tunnel/src/misc/hev-ring-buffer.c:87-93 | What was written joins the waiting bytes at the end |
| `TcpSplice.Session.SpliceForward` | android/app/src/main/jni/hev-socks5-tunnel/src/hev-socks5-session-tcp.c:44-83 | Exactly the first min (n, length of the first 64 buffers) bytes of the queue go to the socket and leave it, also if more arrives in between; nothing is written for a socket that would block; the socket is shut down only when the stack has ended and everything was forwarded |
| `TcpSplice.Session.SpliceBack` | android/app/src/main/jni/hev-socks5-tunnel/src/hev-socks5-session-tcp.c:85-131 | What is fetched is exactly what the read gives, as far as it fits; what is passed to the stack are the bytes read from the socket, in order; the stack is told the end only when everything was passed on |
| `TcpSplice.Session.Callback` | android/app/src/main/jni/hev-socks5-tunnel/src/hev-socks5-session-tcp.c:133-172 | A packet joins the queue and what was received exactly if the stack has not ended and the queue is empty or within the window, and changes nothing otherwise; an end and a failure are noted; an acknowledgement of n moves exactly min (n, in flight) bytes to what is acknowledged |
| `TcpSplice.Session.Splice` | android/app/src/main/jni/hev-socks5-tunnel/src/hev-socks5-session-tcp.c:218-254 | For every interleaving of splice steps and callbacks: what was received are the accepted packets of all calls in order, what was fetched is what the reads gave in order, what was forwarded is a prefix of the one and what was passed on of the other; the loop ends by its results only when both directions are shut down or broken |
| `TcpSplice.Session.Drain` | android/app/src/main/jni/hev-socks5-tunnel/src/hev-socks5-session-tcp.c:255-261 | The second loop ends well only when the stack has acknowledged everything or is gone |
| `UdpInTcp.DecodesExactly` | android/app/src/main/jni/hev-socks5-tunnel/src/core/src/hev-socks5-udp.c:56-100 | A frame is read back if and only if its address has at most 252 bytes, its payload less than 65536, and both fit the buffer |
| `UdpInTcp.LongName` | android/app/src/main/jni/hev-socks5-tunnel/src/core/src/hev-socks5-udp.c:81-82 | A name of 249 bytes is a valid address whose frame is not read back |
| `UdpInTcp.Send` | android/app/src/main/jni/hev-socks5-tunnel/src/core/src/hev-socks5-udp.c:56-100 | A batch is written as its frames, or refused if an address has an unknown type |
| `UdpInTcp.Receive` | android/app/src/main/jni/hev-socks5-tunnel/src/core/src/hev-socks5-udp.c:160-232 | The filled messages are the next datagrams of the stream, as far as the batch, the first reads of the headers and good headers go; the result is the integer of the source, which is not always their number: byte counts and error codes of short reads are passed on |
| `UdpInTcp.MiscountsExactly` | android/app/src/main/jni/hev-socks5-tunnel/src/core/src/hev-socks5-udp.c:183-217 | A positive result is not the number of datagrams if and only if the stream ends in the first header of the batch, or in what follows a good header with another number of bytes than datagrams; datagrams are lost to a result of at most 0 if and only if a bad header, or one with nothing behind it, follows them |
| `UdpInTcp.CutStream` | android/app/src/main/jni/hev-socks5-tunnel/src/core/src/hev-socks5-udp.c:183-217 | For any frames and a further one cut off after k bytes by the end of the stream: all whole datagrams are in the messages, and the result is k - 5, or k, or their number, as the cut is behind the header, in the first header, or in a later one |
| `UdpInTcp.CutHeader` | android/app/src/main/jni/hev-socks5-tunnel/src/core/src/hev-socks5-udp.c:183-188 | Three bytes of a header and the end of the stream: three datagrams are reported and there is none |
| `UdpInTcp.ReceivesWhatWasSent` | android/app/src/main/jni/hev-socks5-tunnel/src/core/src/hev-socks5-udp.c:160-232 | Whatever is read from a stream of frames are the datagrams sent, in order, and the rest are the frames of the others |
| `UdpInTcp.Relay` | android/app/src/main/jni/hev-socks5-tunnel/src/core/src/hev-socks5-udp.c:56-232 | Any batches sent and received in any order, with any pauses, parts of heads and kind of reads: every positive result is the number of datagrams, what has been received is what was sent, and a long enough last receive gets everything |
| `VlessUri.ParseQueryParams` | android/app/src/main/java/net/mirage/vpn/RemoteConfigFetcher.kt:511-522 | The loop fills the map that gives every key its last value |
| `VlessUri.TlsRoundTrip` | android/app/src/main/java/net/mirage/vpn/RemoteConfigFetcher.kt:437-454 | Parsing undoes printing for a TLS configuration if and only if it is TlsExact: no part holds a character that ends it, the path is not empty and holds no %2F, and host and sni are given |
| `VlessUri.RealityRoundTrip` | android/app/src/main/java/net/mirage/vpn/RemoteConfigFetcher.kt:456-464 | Parsing undoes printing for a REALITY configuration if and only if no part holds a character that ends it |
| `VlessUri.EscapedPath` | android/app/src/main/java/net/mirage/vpn/RemoteConfigFetcher.kt:437-454 | No TLS configuration with the path /%2F is read back |
| `VlessUri.SplitShortId` | android/app/src/main/java/net/mirage/vpn/RemoteConfigFetcher.kt:456-464 | No REALITY configuration with the short id a&b is read back |
| `VlessUri.DissectLink` | android/app/src/main/java/net/mirage/vpn/RemoteConfigFetcher.kt:112-150 | A printed link with clean parts is taken apart into just these parts |
| `Text.EscapeRoundTrip` | android/app/src/main/java/net/mirage/vpn/RemoteConfigFetcher.kt:438 | Decoding undoes encoding of slashes if and only if there was no code in the text |
| `ConfigGrid.Generate` | android/app/src/main/java/net/mirage/vpn/GridConfigGenerator.kt:35-87 | The loops compute the cross product of CDN addresses and backends without the combinations that exist |
| `ConfigGrid.Fixpoint` | android/app/src/main/java/net/mirage/vpn/GridConfigGenerator.kt:35-87 | Generating from a list extended by its own output gives nothing |
| `ConfigGrid.Coverage` | android/app/src/main/java/net/mirage/vpn/GridConfigGenerator.kt:62-82 | After one call an address has a backend if and only if it had it before or no configuration had the key of the two |
| `ConfigGrid.ServedExactly` | android/app/src/main/java/net/mirage/vpn/GridConfigGenerator.kt:62-82 | After one call a CDN address serves the host and path of a backend if and only if it did before or no configuration had the key of the three |
| `ConfigGrid.EveryPairServed` | android/app/src/main/java/net/mirage/vpn/GridConfigGenerator.kt:62-82 | If no address and no host holds a bar, every CDN address serves the host and path of every backend |
| `ConfigGrid.SharedHost` | android/app/src/main/java/net/mirage/vpn/GridConfigGenerator.kt:57-66 | Two backends that differ in the user only: an address that has one never gets the other |
| `ConfigRepository.Repository.AddFetched` | android/app/src/main/java/net/mirage/vpn/ConfigRepository.kt:60-67 | What was fetched joins the store under links that are not there yet; every link keeps one configuration |
| `ConfigRepository.Repository.ExpandWithGridSearch` | android/app/src/main/java/net/mirage/vpn/ConfigRepository.kt:207-216 | The missing grid configurations join the store under their links, first come first kept |
| `ConfigRepository.ExpandedTwice` | android/app/src/main/java/net/mirage/vpn/ConfigRepository.kt:207-216 | A second expansion adds nothing, whatever the links and configurations are |
| `ConfigRepository.ExpandedSound` | android/app/src/main/java/net/mirage/vpn/ConfigRepository.kt:207-216 | A store whose configurations are what their links say stays so under expansion if and only if every pair of address and backend that is due has a path, a host without & and without # in its first label, and an address without # in its last |
| `ConfigRepository.HashExample` | android/app/src/main/java/net/mirage/vpn/GridConfigGenerator.kt:78 | Four links that are read as they should be whose expansion adds one that is not |
| `GridLinks.SameLink` | android/app/src/main/java/net/mirage/vpn/RemoteConfigFetcher.kt:437-454 | Of two generated configurations with one link, both can be read back from it or neither |
| `DnsServer.ReadName` | android/app/src/main/jni/hev-socks5-tunnel/src/hev-mapped-dns.c:203-213 | The loop over the length bytes finds the end of the name exactly if it lies in the request, and leaves the name dotted in place and every other byte as it was |
| `DnsServer.ReadQuestions` | android/app/src/main/jni/hev-socks5-tunnel/src/hev-mapped-dns.c:201-230 | The loop over the questions, which overwrites the request as it goes, finds what the scan of the untouched request says: the A/IN questions with their places and names, where the questions end, or that one is cut off; each name is found in the cache in turn |
| `DnsHandler.WriteAnswers` | android/app/src/main/jni/hev-socks5-tunnel/src/hev-mapped-dns.c:232-245 | One record of 16 bytes for every address is put behind the questions, or -1 if they do not fit |
| `DnsHandler.Handle` | android/app/src/main/jni/hev-socks5-tunnel/src/hev-mapped-dns.c:174-251 | There is a reply exactly if the buffer is large enough, there are at most 32 questions, all in the request, and the answers fit; it is the header with QR set, RA as RD and the counts, the questions as they came, and an address for every A/IN question; the cache has taken exactly the finds of those names |
| `DnsAnswers.AnswerLooksUp` | android/app/src/main/jni/hev-socks5-tunnel/src/hev-mapped-dns.c:219-227 | The address of any answer leads a lookup to the dotted name of its question, whatever is used in between, unless max other names are |
| `DnsAnswers.AnswerExactly` | android/app/src/main/jni/hev-socks5-tunnel/src/hev-mapped-dns.c:219-227 | Right after the reply the address of the last question for a name leads to the name if and only if fewer than max other names are asked for behind it |
| `DnsAnswers.AskThenLookup` | android/app/src/main/jni/hev-socks5-tunnel/src/hev-mapped-dns.c:174-271 | End to end: answering a request, reading the k-th address out of the bytes of the reply, any use of the cache, and looking the address up |
| `DnsAnswers.ProperRequest` | android/app/src/main/jni/hev-socks5-tunnel/src/hev-mapped-dns.c:201-230 | Well-formed questions are found as they are: labels joined by dots, with the offsets of their names |
| `DnsPointers.PointsExactly` | android/app/src/main/jni/hev-socks5-tunnel/src/hev-mapped-dns.c:205-245 | In the bytes of every reply: the name of the question that an answer belongs to stands at the offset where it was found, and the name of the answer is a pointer to it if and only if the offset is below 256 |
| `DnsPointers.FarQuestion` | android/app/src/main/jni/hev-socks5-tunnel/src/hev-mapped-dns.c:236-237 | Every reply to two well-formed questions with a label of 250 bytes has the second name at offset 268 and the second answer pointing to offset 12 |
| `YamlQueue.Queue.Extend` | android/app/src/main/jni/hev-socks5-tunnel/third-part/yaml/src/api.c:141-169 | Doubling and compacting keep the elements in order and leave space behind them |
| `YamlQueue.Queue.Enqueue` | android/app/src/main/jni/hev-socks5-tunnel/third-part/yaml/src/yaml_private.h:471-478 | The element joins the end of the sequence of elements, across growth and compaction |
| `YamlQueue.Queue.Dequeue` | android/app/src/main/jni/hev-socks5-tunnel/third-part/yaml/src/yaml_private.h:480-481 | The first element leaves the sequence |
| `YamlEmitter.Emitter.NeedMoreEvents` | android/app/src/main/jni/hev-socks5-tunnel/third-part/yaml/src/emitter.c:308-357 | More events are needed exactly if the queue is empty, or it starts a document, sequence or mapping with at most 1, 2 or 3 events and nothing in it closes what it opens |
| `YamlEmitter.Emitter.CheckEmpty` | android/app/src/main/jni/hev-socks5-tunnel/third-part/yaml/src/emitter.c:1118-1139 | Whenever a collection is started the next event of the stream is known, and the check is true exactly if it is the matching end |
| `YamlEmitter.Emitter.CheckSimpleKey` | android/app/src/main/jni/hev-socks5-tunnel/third-part/yaml/src/emitter.c:1146-1191 | A key is simple if and only if it is an alias, a scalar of one line or an empty collection, of at most 128 characters |
| `YamlEmitter.Emitter.StateMachine` | android/app/src/main/jni/hev-socks5-tunnel/third-part/yaml/src/emitter.c:423-488 | One event leads from a state that stands for a place of the event grammar to one that stands for the next place, or there is trouble; it is called misplaced only if the grammar refuses it; a collection starts in flow style exactly if it is inside one, asked for or empty |
| `YamlEmitter.Emitter.EmitItem` | android/app/src/main/jni/hev-socks5-tunnel/third-part/yaml/src/emitter.c:745-911 | Items of flow and block sequences: no stack is popped empty, and indents and flow level match the open collections before and after |
| `YamlEmitter.Emitter.EmitKey` | android/app/src/main/jni/hev-socks5-tunnel/third-part/yaml/src/emitter.c:794-955 | The same for the keys of flow and block mappings; the value goes on as a simple one exactly if the key is an alias, a scalar of one line or an empty collection, of at most 128 characters, and not in a canonical flow mapping |
| `YamlEmitter.Emitter.Emit` | android/app/src/main/jni/hev-socks5-tunnel/third-part/yaml/src/emitter.c:280-298 | After every call the events taken from the queue follow the grammar to where the automaton stands, those and the queued ones are all that were given, and the emitter waits only where it needs more |
| `YamlEmitter.Emitter.EmitAll` | android/app/src/main/jni/hev-socks5-tunnel/third-part/yaml/src/emitter.c:280-357 | For any stream: at most 3 events stay queued; a stream of the grammar is never called misplaced, and once it is complete all of it has been emitted |
| `YamlEmitter.NothingKept` | android/app/src/main/jni/hev-socks5-tunnel/third-part/yaml/src/emitter.c:308-357 | At the end of a complete stream no event is kept back |
| `YamlEmitStates.NestedPairs` | android/app/src/main/jni/hev-socks5-tunnel/third-part/yaml/src/emitter.c:1060-1103 | In every state that the invariant allows, all collections inside a flow collection are flow collections |
| `YamlEmitStates.StartGood` | android/app/src/main/jni/hev-socks5-tunnel/third-part/yaml/src/emitter.c:1060-1103 | The start of a collection keeps the invariant of states, indents and flow level and takes the step of the grammar |
| `YamlEmitStates.EndGood` | android/app/src/main/jni/hev-socks5-tunnel/third-part/yaml/src/emitter.c:758-772 | The end of a collection pops both stacks, which are not empty, keeps the invariant and takes the step of the grammar |
| `YamlDumpGrammar.DumpedStreamFollows` | android/app/src/main/jni/hev-socks5-tunnel/third-part/yaml/src/dumper.c:111-160 | The stream that is dumped for any document is a complete stream of the event grammar, so the emitter does not call it misplaced |
| `Unicode.EncodedDecodes` | android/app/src/main/jni/hev-socks5-tunnel/third-part/yaml/src/reader.c:425-448 | Every character is decoded from the UTF-8 that is put into the buffer, whatever follows it |
| `Unicode.DecodedEncodes` | android/app/src/main/jni/hev-socks5-tunnel/third-part/yaml/src/reader.c:206-296 | Whatever is accepted as a UTF-8 sequence is the one encoding of its character (section 3 of RFC 3629) |
| `Unicode.Reproduced` | android/app/src/main/jni/hev-socks5-tunnel/third-part/yaml/src/reader.c:190-451 | The characters decoded from UTF-8 up to the first mistake spell out the input byte by byte |
| `YamlReader.Reader.UpdateRawBuffer` | android/app/src/main/jni/hev-socks5-tunnel/third-part/yaml/src/reader.c:93-132 | Whatever chunk the read handler delivers, unread bytes and what is still to come are together the same |
| `YamlReader.Reader.DetermineEncoding` | android/app/src/main/jni/hev-socks5-tunnel/third-part/yaml/src/reader.c:50-87 | The encoding and mark are those of the whole input, however many reads it takes to see three bytes |
| `YamlReader.Reader.UpdateBuffer` | android/app/src/main/jni/hev-socks5-tunnel/third-part/yaml/src/reader.c:141-469 | For requests of up to 6000 characters and any chunks: the buffer is never overrun, what was taken and what is in the buffer is a prefix of the characters of the input, there are enough of them or the input has ended, and input is called bad only where its text ends in a mistake |
| `YamlReader.Reader.ReadAll` | android/app/src/main/jni/hev-socks5-tunnel/third-part/yaml/src/reader.c:141-469 | All requests together deliver exactly the UTF-8 of the text of the input, which does not depend on the chunks or on the lengths asked for |
| `YamlReader.Utf8Kept` | android/app/src/main/jni/hev-socks5-tunnel/third-part/yaml/src/reader.c:141-469 | A UTF-8 input without mistakes is reproduced byte for byte behind its mark |
| `YamlReader.Expansion` | android/app/src/main/jni/hev-socks5-tunnel/third-part/yaml/src/reader.c:425-448 | No character takes more than three bytes in the buffer for two raw bytes |
| `YamlWriter.Recode` | android/app/src/main/jni/hev-socks5-tunnel/third-part/yaml/src/writer.c:65-124 | The loop writes the recoded characters of the buffer and stays in the raw buffer |
| `YamlWriter.RecodedExactly` | android/app/src/main/jni/hev-socks5-tunnel/third-part/yaml/src/writer.c:103-123 | Text recoded to UTF-16 is read back if and only if bits 8 to 15 of every character above U+FFFF, less 0x10000, are below 4; all characters below U+10000 are (section 2 of RFC 2781) |
| `YamlWriter.LostCharacter` | android/app/src/main/jni/hev-socks5-tunnel/third-part/yaml/src/writer.c:114-122 | U+10400 is written as something that the reader refuses |
| `YamlWriter.Flush` | android/app/src/main/jni/hev-socks5-tunnel/third-part/yaml/src/writer.c:31-141 | What is handed to the write handler is the text as UTF-8, or recoded |
| `YamlTranscoding.WrittenExactly` | android/app/src/main/jni/hev-socks5-tunnel/third-part/yaml/src/writer.c:31-141 | Writer and reader together, with byte order mark: UTF-8 comes back unless it starts with a mark, UTF-16 if and only if all characters survive |
| `YamlTranscoding.WriteAll` | android/app/src/main/jni/hev-socks5-tunnel/third-part/yaml/src/writer.c:31-141 | However the text is cut into buffers, all flushes together hand over the bytes of the text |
| `YamlTranscoding.WriteThenRead` | android/app/src/main/jni/hev-socks5-tunnel/third-part/yaml/src/writer.c:31-141 | A text that is flushed in any pieces and read by requests of any length comes back exactly under that condition, unless reading fails |
| `YamlTranscoding.MarkLost` | android/app/src/main/jni/hev-socks5-tunnel/third-part/yaml/src/reader.c:76-81 | UTF-8 text that starts with a byte order mark loses it |
| `DnsReplies.ReplyBits` | android/app/src/main/jni/hev-socks5-tunnel/src/hev-mapped-dns.c:246-250 | In the bytes of every reply: the identifier is that of the request, QR is set and the other high flags are kept, RA is set exactly if it was or RD is, the question count is kept, authority and additional counts are zero |
| `DnsReplies.AnswerFields` | android/app/src/main/jni/hev-socks5-tunnel/src/hev-mapped-dns.c:232-245 | Every answer has a pointer, type 1, class 1, time to live 1, length 4 and the four bytes of its address |
| `DnsReplies.AnsweredExactly` | android/app/src/main/jni/hev-socks5-tunnel/src/hev-mapped-dns.c:174-251 | A request of well-formed questions gets a reply exactly if there are at most 32 of them and questions and answers fit the buffer |
| `YamlDumped.NameIs` | android/app/src/main/jni/hev-socks5-tunnel/third-part/yaml/src/dumper.c:247-257 | The name of anchor n is id and n in three digits, or in more without leading zeros |
| `YamlDumped.AnchorsNumbered` | android/app/src/main/jni/hev-socks5-tunnel/third-part/yaml/src/dumper.c:206-238 | The anchors of a document have the numbers from 1 up to how many there are |
| `YamlDumped.EventsShow` | android/app/src/main/jni/hev-socks5-tunnel/third-part/yaml/src/dumper.c:263-393 | Every event of a dump shows its step of the walk: tag, text, style and anchor of the node that is entered, and that the tag can be left out exactly if it is tag:yaml.org,2002:str, :seq or :map; an alias with the anchor of a node met again; the end of the collection that is left |
| `YamlLoaded.LoadsExactly` | android/app/src/main/jni/hev-socks5-tunnel/third-part/yaml/src/loader.c:184-544 | For every document of the grammar, and whatever follows it: it loads exactly if every alias comes after its anchor and no anchor comes twice; then its nodes are those of the tree in the order of their events, with kind, text and style, the tag or tag:yaml.org,2002:str, :seq or :map where there is none or "!", and the children of the tree, aliases leading to the nodes of their anchors |
| `YamlLoaded.TakeAllAlike` | android/app/src/main/jni/hev-socks5-tunnel/third-part/yaml/src/loader.c:347-544 | Of whatever events load, the k-th node has kind, text, style and tag of the k-th event of a node |
| `YamlLanding.NodeLands` | android/app/src/main/jni/hev-socks5-tunnel/third-part/yaml/src/parser.c:528-717 | A node step issues an alias, a scalar or the start of a collection where a node is wanted, and lands where the grammar leads |
| `YamlLanding.StepLands` | android/app/src/main/jni/hev-socks5-tunnel/third-part/yaml/src/parser.c:225-304 | From every state whose stacks are in step every event is one that the grammar allows there, the state lands where it leads with the stacks in step, and a token is consumed or the rank goes down |
| `YamlTells.NodeTells` | android/app/src/main/jni/hev-socks5-tunnel/third-part/yaml/src/parser.c:528-717 | The event of a node tells exactly the alias, or anchor and tag in either order and the scalar, that were consumed; a tag is its suffix behind the prefix of the first directive for its handle; without a scalar the text is empty and plain |
| `YamlTells.StepTells` | android/app/src/main/jni/hev-socks5-tunnel/third-part/yaml/src/parser.c:225-304 | The same for every step in every state; the events of ends, documents and streams tell nothing |
| `YamlPrinted.NodeGoes` | android/app/src/main/jni/hev-socks5-tunnel/third-part/yaml/src/parser.c:528-1199 | On the tokens of any node, scalar, alias or nested block, indentless and flow collections with single pairs and left-out keys and values, the parser makes exactly the events of the node and is then before what follows |
| `YamlStreams.ParsesExactly` | android/app/src/main/jni/hev-socks5-tunnel/third-part/yaml/src/parser.c:169-1199 | On the tokens of any documents, with directives and indicators or without, every run is complete and its events are exactly those of the documents, with texts, names, anchors, resolved tags and styles |
| `YamlPairs.LeftOutKey` | android/app/src/main/jni/hev-socks5-tunnel/third-part/yaml/src/parser.c:1010-1034 | A single pair whose key is left out is read as it was written, with what follows it still to come, if and only if it has a value indicator and no value |
| `YamlPairs.KeyBreaks` | android/app/src/main/jni/hev-socks5-tunnel/third-part/yaml/src/parser.c:1010-1034 | Whenever the token that shows a left-out key is followed by neither a comma, nor the end, nor a value indicator, the run breaks after an empty pair |
| `YamlPairs.LeftOutKeyFails` | android/app/src/main/jni/hev-socks5-tunnel/third-part/yaml/src/parser.c:1010-1034 | The tokens of [? : v] make the parser fail |
| `YamlEmitter.NeedsExactly` | android/app/src/main/jni/hev-socks5-tunnel/third-part/yaml/src/emitter.c:308-357 | The emitter waits exactly on an empty queue, a document start alone, a sequence start alone or with one event that is no end, and a mapping start alone, with one such event, or with two that do not close it |
| `Socks5Wire.ConnectedWire` | android/app/src/main/jni/hev-socks5-tunnel/src/core/src/hev-socks5-client.c:25-262 | In every run that ends connected the bytes sent are: 5, 1 and the method 0 or 2; with credentials 1, and name and password behind their lengths; 5, the command 1, 3 or 5, 0, and the address as 1, 3 or 4 with its bytes and port; and back 5 and the method, 1 and 0 for a user, and 5, 0, 0 and an address |
| `Socks5Wire.SentWire` | android/app/src/main/jni/hev-socks5-tunnel/src/core/src/hev-socks5-client.c:25-150 | In every run, connected or not, the client has sent a first part of these bytes |
| `Socks5Wire.ClientAnswered` | android/app/src/main/jni/hev-socks5-tunnel/src/core/src/hev-socks5-client.c:155-394 | Whatever bytes any server answers: the client is connected if and only if they are the method, the welcome and the success it waits for, and it sends exactly these bytes, in standard mode as far as the answers go |
| `Socks5Wire.GreetingAnswered` | android/app/src/main/jni/hev-socks5-tunnel/src/core/src/hev-socks5-server.c:57-121 | Any greeting is answered with 5 and the wanted method, 2 if there are users and 0 if not, if it has version 5 and lists it, and with 5, 255 and the end otherwise |
| `Socks5Wire.UserAnswered` | android/app/src/main/jni/hev-socks5-tunnel/src/core/src/hev-socks5-server.c:124-239 | Any credentials are answered with 1, 0 if they are version 1 and a user with the password, and with 1, 255 and the end otherwise |
| `Socks5Wire.RequestAnswered` | android/app/src/main/jni/hev-socks5-tunnel/src/core/src/hev-socks5-server.c:241-528 | Any request is answered with 5, a code, 0 and an address: 0 and service of this command and address, 1 for another version or a failed bind, 4 for a failed connect, 7 for an unknown command, 8 for an address of an unknown type, cut off or not resolved |
| `LinkReading.LinkReads` | android/app/src/main/java/net/mirage/vpn/RemoteConfigFetcher.kt:112-193 | A link with any parameters, known or not and in any order, is read as what they say, the last of each counting, with the defaults of the source for those that are not there |
| `LinkReading.BareLinkReads` | android/app/src/main/java/net/mirage/vpn/RemoteConfigFetcher.kt:112-193 | A link without parameters and name is TLS over tcp to the host itself with the path / |
| `LinkReading.SecurityDecides` | android/app/src/main/java/net/mirage/vpn/RemoteConfigFetcher.kt:112-193 | A link that says nothing but its security: reality with chrome and xtls-rprx-vision, tls for tls, none and an empty one, nothing for any other |
| `LinkReading.LinkText` | android/app/src/main/java/net/mirage/vpn/RemoteConfigFetcher.kt:437-464 | A printed link, character by character |
| `GridExactly.GeneratedExactly` | android/app/src/main/java/net/mirage/vpn/GridConfigGenerator.kt:35-87 | A configuration is generated if and only if it is one over ws or xhttp at an address that two configurations use for different hosts, moved to another such address, with the host as sni, named by the first label of the host and the last of the address, and no configuration has its address, host and path |
| `Unicode.PlainText` | android/app/src/main/jni/hev-socks5-tunnel/third-part/yaml/src/reader.c:190-451 | Lines of printable ASCII are read as they are |
| `Unicode.RefusedExactly` | android/app/src/main/jni/hev-socks5-tunnel/third-part/yaml/src/reader.c:410-418 | Refused are exactly the controls other than tab, line feed, carriage return and next line, delete, halves of surrogate pairs, U+FFFE and U+FFFF and what is beyond U+10FFFF |
| `YamlConfig.ConfigLoads` | android/app/src/main/jni/hev-socks5-tunnel/third-part/yaml/src/loader.c:99-257 | Parser and loader together: the tokens of any printed documents are parsed to events from which the first document loads, exactly if its names are sound, to the nodes of the document as it is written |
| `YamlConfig.EventsFlat` | android/app/src/main/jni/hev-socks5-tunnel/third-part/yaml/src/parser.c:528-1199 | The events of a written node are those of its tree |

## Findings

Properties that one might expect and that the code does not have; for each there is a failing input and the exact
condition.

| property | fails | holds exactly if |
|---|---|---|
| A UDP-in-TCP frame is read back | a name of 249 bytes, for the header length is one byte: `UdpInTcp.LongName` | `UdpInTcp.DecodesExactly` |
| A positive result of a UDP-in-TCP receive is the number of datagrams | the stream ends after three bytes: `UdpInTcp.CutHeader`; in a frame: `UdpInTcp.CutStream` | `UdpInTcp.MiscountsExactly` |
| Dumping and loading keep tags | tag "!": `YamlRoundTrip.BangTag` | `YamlRoundTrip.TagsKept` |
| A single pair in a flow sequence is parsed as it is written | `[? : v]`: `YamlPairs.LeftOutKeyFails`; the family: `YamlPairs.KeyBreaks` | `YamlPairs.LeftOutKey`; with a key always: `YamlStreams.ParsesExactly` |
| A printed TLS link is parsed to the same configuration | path /%2F: `VlessUri.EscapedPath` | `VlessUri.TlsRoundTrip` |
| A printed REALITY link is parsed to the same configuration | short id a&b: `VlessUri.SplitShortId` | `VlessUri.RealityRoundTrip` |
| Every CDN address gets every backend | backends that share host and path: `ConfigGrid.SharedHost` | `ConfigGrid.Coverage`; for host and path `ConfigGrid.ServedExactly` |
| Links in the store say what their configurations are | host a#b: `ConfigRepository.HashExample` | `ConfigRepository.ExpandedSound` |
| An answer points to the question it answers | question behind the first 256 bytes: `DnsPointers.FarQuestion` | `DnsPointers.PointsExactly` |
| Text written in UTF-8 is read back | a first U+FEFF: `YamlTranscoding.MarkLost` | `YamlTranscoding.WrittenExactly` |
| Text written in UTF-16 is read back | U+10400: `YamlWriter.LostCharacter` | `YamlWriter.RecodedExactly`, `YamlTranscoding.WrittenExactly` |

## Left out

- The scanner: the parser is modelled on any sequence of tokens, and nothing is said about the text they come from.
- YAML marks: positions in events, nodes and error messages; only the depth of the mark stack is kept.
- Version and tag directives beyond their handling in the parser: they are not carried into documents.
- Limits of the YAML stacks (INT_MAX entries) and failing allocations.
- The text that the emitter writes: styles of scalars, analysis of anchors, tags and texts, directives, line breaks and
  columns. Whether they fail, and whether a sequence in a mapping is indented, may go either way at every event.
- YamlReader.Reader.UpdateBuffer: requests of more than 6000 characters and the limit on the size of a file are left
  out.
- YamlWriter.Flush: failing writes.
- UdpInTcp.Receive: errno, by which callers tell an empty socket from the other results of -1.
- DnsHandler.Handle: requests shorter than a DNS header are left out; the source takes their header from the memory
  behind them. Its look at the byte behind the last question cannot change the result, and the swapped question count
  it leaves in the request is not read again.
- Wire formats beside those of the handshake and of UDP in TCP: plain UDP relaying, FWD_UDP payloads and the name
  resolution behind an address.
- The address in the response of a server that has not bound one is whatever its memory held; the model takes any
  valid address that is no name.
- MappedDns.MappedDns.Find: the slot is read off the first node of the list before the new node is linked, and the
  nodes for a new entry are parameters; the source links the node first, which gives the same state.
- MappedDns.MappedDns.constructor: a cache with no slots (max 0) is left out, and so is a network address with host
  bits.
- Authenticator: reference counts of users.
- TcpSplice.Session.Callback: the stack delivers no bytes after its end and acknowledges no more than it was given.
- ConfigRepository: files, assets, downloads and scores; links of the other protocols are kept as they are.
- VMess, Trojan and Shadowsocks links: they rest on JSON and Base64 libraries.
- Connection management, user interface, logging, JNI and the tunnel device: system calls and foreign code.
