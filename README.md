# mcp-webcrawler: the page fetcher, modelled in Dafny

This project models the crawling core of mcp-webcrawler, the Go service that
fetches a web page for an MCP client and turns it into a `PageContent`
record. The model covers `Crawler.FetchPage` and the helpers it calls in
`internal/crawl/crawler.go`:

- `validateURL`, the safety guard that refuses unsupported schemes, the
  local host names and private or loopback IP literals (module `UrlSafety`);
- the parsed page as goquery sees it: element trees, selector queries in
  document order, `Text()`, `Attr()` and the in-place `Remove()` of
  `script`, `style`, `nav` and `footer` (module `Markup`);
- `extractMainContent`, `extractLinks`, `extractImages` and
  `extractHeadings`, each a method with the loop of its `Each` callback,
  proved equal to a specification function on the tree (module `Extract`);
- `FetchPage` itself: the order of its steps, the error each step wraps,
  and how the record's fields are filled (module `Crawler`);
- Go's `strings.TrimSpace`, the byte length `len` of a string and the text
  a `strings.Builder` holds (module `Text`), and shared `Option`/`Result`
  types (module `Base`).

The URL parser (`url.Parse`), the IP parser (`net.ParseIP`), the HTTP round
trip and the HTML parser are supplied by the caller as the fields of
`Crawler.Env`; the model states what FetchPage does with whatever they
return. What `url.URL.Hostname` and `net.IP.IsPrivate`/`IsLoopback` compute
is modelled concretely, since the guard's verdict depends on it.

Two details of the code that are easy to misread, and that the model keeps
as written:

- the fallback content keeps blocks longer than ten bytes (Go's `len`), not
  ten characters (`Extract.FallbackThresholdCountsBytes`);
- only the content, the headings and the trimmed text blocks are trimmed;
  the title, the meta values and the language are taken verbatim
  (`Crawler.TitleOf` is the whole text of the first `title` element).

One place departs from the code on purpose: the `og:image` selector of line
76 can never match (see "## Findings"), and the record's `imageUrl` is
filled by the corrected rule `Crawler.ImageUrl`; the rule as written is
`Crawler.ImageUrlAsWritten`.

## Model

| member | source | states |
|---|---|---|
| UrlSafety.ValidateUrl | internal/crawl/crawler.go:176-201 | the URL is allowed exactly when it is a safe target (parses, http or https, not a local name, not a private or loopback IP literal); each rejection names the check that failed with the scheme or host it saw |
| UrlSafety.IsSafeTarget | internal/crawl/crawler.go:176-201 | the policy the guard enforces: the URL parses, its scheme is http or https, its hostname is not a local name, and it is not a private or loopback IP literal |
| UrlSafety.ValidationError.Message | internal/crawl/crawler.go:179-196 | the text of each refusal: "invalid URL format: " plus the parser's error, "unsupported protocol: " plus the scheme, "local host access is not allowed", "private IP access not allowed: " plus the hostname |
| UrlSafety.SchemeCheckedFirst | internal/crawl/crawler.go:183-185 | any scheme other than http and https is refused as unsupported, naming the scheme, whatever the host |
| UrlSafety.LocalNamesCheckedBeforeAddresses | internal/crawl/crawler.go:188-191 | a hostname of localhost, 127.0.0.1 or ::1 is refused as local before any IP parsing |
| UrlSafety.LocalHostRefusedOnAnyPort | internal/crawl/crawler.go:188-191 | localhost, 127.0.0.1 and [::1] are refused with or without any numeric port |
| UrlSafety.HostnameDropsPort | internal/crawl/crawler.go:188 | Hostname ignores a numeric port: name:port and name: give the same hostname |
| UrlSafety.HostnameOfLocalName | internal/crawl/crawler.go:188-189 | localhost, 127.0.0.1 and [::1], with or without an empty port, all give a hostname among the local names |
| UrlSafety.HostnameOfBareName | internal/crawl/crawler.go:188 | a host without colon or bracket is its own hostname, with or without an empty port |
| UrlSafety.HostnameOfBracketedLoopback | internal/crawl/crawler.go:188-189 | [::1] yields the hostname ::1 that the local-name check compares against |
| UrlSafety.PlainHostNamesPass | internal/crawl/crawler.go:194-200 | an http(s) host that is not a local name and not an IP literal is allowed, without resolving it |
| UrlSafety.PrivateLiteralRefused | internal/crawl/crawler.go:194-197 | a private or loopback IP literal is refused with the hostname in the message |
| UrlSafety.PrivateV4IsRfc1918 | internal/crawl/crawler.go:195 | an IPv4 address is private exactly in 10/8, 172.16/12 and 192.168/16 |
| UrlSafety.LoopbackV4Is127 | internal/crawl/crawler.go:195 | an IPv4 address is loopback exactly in 127/8 |
| UrlSafety.V6Classification | internal/crawl/crawler.go:195 | an IPv6 address is private exactly in fc00::/7 and loopback exactly when it is ::1 |
| UrlSafety.To4 | internal/crawl/crawler.go:195 | an address has an IPv4 form exactly when its first twelve bytes are the ::ffff:0:0/96 prefix, and that form is its last four bytes |
| UrlSafety.Hostname | internal/crawl/crawler.go:188 | url.URL.Hostname: the host without a trailing ":digits" port and without the brackets of an IPv6 literal (its properties are the Hostname lemmas) |
| UrlSafety.IsPrivate | internal/crawl/crawler.go:195 | net.IP.IsPrivate over the 16-byte form (its ranges are stated by PrivateV4IsRfc1918 and V6Classification) |
| UrlSafety.IsLoopback | internal/crawl/crawler.go:195 | net.IP.IsLoopback over the 16-byte form (its ranges are stated by LoopbackV4Is127 and V6Classification) |
| Text.TrimSpace | internal/crawl/crawler.go:126 | strings.TrimSpace as the left trim followed by the right trim (its properties are TrimSpaceIsTrimmed and TrimSpaceOfPadded) |
| Text.TrimSpaceIsTrimmed | internal/crawl/crawler.go:126 | the trimmed text has no white space at either end and is empty exactly when the input is all white space |
| Text.TrimSpaceOfPadded | internal/crawl/crawler.go:142 | trimming removes exactly the white-space padding around a trimmed core |
| Text.Utf8Len | internal/crawl/crawler.go:136 | the byte length of a string lies between its character count and four times it, and is zero only for the empty string |
| Text.RenderAppend | internal/crawl/crawler.go:128 | writing two runs of lines to the builder gives the two texts one after the other |
| Text.RenderThenTrimIsJoin | internal/crawl/crawler.go:142 | trimming the builder's text after non-empty trimmed lines gives the lines joined by single newlines |
| Markup.AttrValue | internal/crawl/crawler.go:150 | an attribute value is found exactly when some attribute has the key, and it is the value of the first attribute with that key |
| Markup.HasClass | internal/crawl/crawler.go:124 | the class selector of `.content, .main`: some class attribute lists the name as one of its separated words |
| Markup.IncludesWord | internal/crawl/crawler.go:124 | the word-list match behind a class selector: the word equals one of the words of the attribute split at white space |
| Markup.Elements | internal/crawl/crawler.go:121-124 | every element of a forest and of its subtrees in document (pre-order) order, the walk a selector query filters |
| Markup.Find | internal/crawl/crawler.go:121-124 | doc.Find: the elements of the whole document that match the selector, in document order |
| Markup.FindWithin | internal/crawl/crawler.go:125 | sel.Find: for each selected element in turn, its matching descendants, the element itself excluded |
| Markup.NodeText | internal/crawl/crawler.go:126 | Selection.Text of one node: its text nodes concatenated in document order (also read at lines 71, 135 and 208) |
| Markup.Select | internal/crawl/crawler.go:149 | a selection holds exactly the nodes that match the selector, and no more nodes than it walked |
| Markup.ElementsAppend | internal/crawl/crawler.go:149 | the document-order walk of two sibling runs is the walk of the first followed by the walk of the second |
| Markup.Prune | internal/crawl/crawler.go:121 | the tree after Remove() of script, style, nav and footer: each such element goes with its subtree, every other node stays in place (its properties are the Prune lemmas below) |
| Markup.PruneAppend | internal/crawl/crawler.go:121 | removal works sibling by sibling |
| Markup.PruneLeavesNoNoise | internal/crawl/crawler.go:121 | after removal no script, style, nav or footer element is left anywhere in the tree |
| Markup.NoiseSubtreeInvisible | internal/crawl/crawler.go:121 | a removed element and its subtree leave no trace: the result is as if it had never been there |
| Markup.NoiseChildInvisible | internal/crawl/crawler.go:121 | the same one level down, inside an element that is kept |
| Markup.NoiseAnywhereInvisible | internal/crawl/crawler.go:121 | a removed element leaves no trace at any depth of the tree, under any chain of enclosing elements |
| Markup.PruneKeepsClean | internal/crawl/crawler.go:121 | a tree with no script, style, nav or footer element anywhere is left exactly as it is: the removal touches nothing else |
| Markup.PruneIdempotent | internal/crawl/crawler.go:121 | removing a second time changes nothing |
| Markup.Document.constructor | internal/crawl/crawler.go:65 | the shared document holds the parsed tree |
| Extract.KeptTextsAreKeptLines | internal/crawl/crawler.go:125-129 | every kept text is non-empty, trimmed and longer than the byte threshold, and there are no more than the items walked |
| Extract.KeptTextsAppend | internal/crawl/crawler.go:124-131 | keeping texts over two selections in turn is keeping them over each and concatenating |
| Extract.KeptStep | internal/crawl/crawler.go:126-128 | the last item extends the builder by its kept line and a newline, or not at all |
| Extract.WriteAllStep | internal/crawl/crawler.go:126-128 | the builder after item j is the builder before it plus item j's written line |
| Extract.WriteAllRenders | internal/crawl/crawler.go:125-129 | writing the items to a builder appends exactly the kept lines, each followed by a newline |
| Extract.KeptTextsStep | internal/crawl/crawler.go:207-212 | the headings kept after item i are those kept before it plus item i's trimmed text when non-empty |
| Extract.ContainerStep | internal/crawl/crawler.go:124-131 | the builder after a content container is the builder before it plus that container's lines |
| Extract.WriteLines | internal/crawl/crawler.go:125-130 | the Each loop writes exactly the kept trimmed texts of the selection, each followed by a newline, after what the builder held |
| Extract.ExtractMainContent | internal/crawl/crawler.go:117-143 | removes script, style, nav and footer from the shared document in place, then returns the main content of the cleaned tree |
| Extract.Tier1Lines | internal/crawl/crawler.go:124-131 | the kept trimmed texts of the h1-h6 and p descendants of each article, main, [role=main], .content or .main element in turn |
| Extract.Tier2Lines | internal/crawl/crawler.go:133-140 | the trimmed texts longer than ten bytes of the p, h1, h2 and h3 descendants of each body |
| Extract.MainContent | internal/crawl/crawler.go:122-142 | the trimmed builder text: the tier-1 lines, or the tier-2 lines when tier 1 wrote nothing, each followed by a newline (its properties are MainContentIsJoinedLines and ContentLinesAreKept) |
| Extract.ContentLinesAreKept | internal/crawl/crawler.go:124-139 | the lines chosen for the content are non-empty and trimmed, and in the fallback each is longer than ten bytes |
| Extract.BuilderHoldsContentLines | internal/crawl/crawler.go:124-142 | the trimmed builder text is the trimmed rendering of the chosen lines |
| Extract.MainContentIsJoinedLines | internal/crawl/crawler.go:124-142 | the main content is the content-container lines joined by newlines, or the body's lines longer than ten bytes when the containers gave none; it is trimmed and every line is non-empty and trimmed |
| Extract.FallbackThresholdCountsBytes | internal/crawl/crawler.go:136 | six two-byte characters pass the fallback threshold and five do not: the threshold counts bytes |
| Extract.Headings | internal/crawl/crawler.go:204-215 | the non-empty trimmed texts of the h1-h6 elements in document order (its properties are HeadingsAreTrimmed and HeadingsInDocumentOrder) |
| Extract.ExtractHeadings | internal/crawl/crawler.go:204-215 | the headings are exactly the non-empty trimmed h1-h6 texts of the tree in document order |
| Extract.HeadingsAreTrimmed | internal/crawl/crawler.go:207-212 | every heading is non-empty and trimmed |
| Extract.HeadingsInDocumentOrder | internal/crawl/crawler.go:207-212 | headings follow sibling order: those of a run of siblings are those of the first part followed by those of the rest |
| Extract.HeadingOfOneElement | internal/crawl/crawler.go:207-212 | a heading element gives its own trimmed text, when non-empty, before the headings nested in it |
| Extract.AttrValues | internal/crawl/crawler.go:150 | one value per selected element, the attribute's value or "" when absent |
| Extract.DistinctNonEmpty | internal/crawl/crawler.go:151-154 | the collected values are exactly the non-empty values, each once |
| Extract.FirstIndex | internal/crawl/crawler.go:151 | the first position of a value, before which the value does not occur |
| Extract.DistinctNonEmptyKeepsFirstOccurrenceOrder | internal/crawl/crawler.go:149-155 | collected values come in the order of their first occurrences |
| Extract.CollectStep | internal/crawl/crawler.go:151-154 | the values collected after element i are those before it plus its value when non-empty and not yet seen |
| Extract.CollectDistinct | internal/crawl/crawler.go:147-155 | the loop with its seen set collects exactly the distinct non-empty values in first-occurrence order |
| Extract.Links | internal/crawl/crawler.go:145-158 | the distinct non-empty href values of the a[href] elements, in first-occurrence order (its property is LinksAreVerbatimHrefs) |
| Extract.ExtractLinks | internal/crawl/crawler.go:145-158 | the links are the distinct non-empty href values of a[href] elements; the base URL plays no part |
| Extract.LinksAreVerbatimHrefs | internal/crawl/crawler.go:149-154 | a string is a link exactly when it is the non-empty href of some a[href] element, unchanged; no link repeats |
| Extract.NavLinksDropped | internal/crawl/crawler.go:121 | a link inside a nav bar is not reported once the nav bar is removed; the body's own link is |
| Extract.Images | internal/crawl/crawler.go:160-173 | the distinct non-empty src values of the img[src] elements, in first-occurrence order (its property is ImagesAreVerbatimSources) |
| Extract.ExtractImages | internal/crawl/crawler.go:160-173 | the images are the distinct non-empty src values of img[src] elements; the base URL plays no part |
| Extract.ImagesAreVerbatimSources | internal/crawl/crawler.go:164-169 | a string is an image exactly when it is the non-empty src of some img[src] element, unchanged; no image repeats |
| Crawler.TitleOf | internal/crawl/crawler.go:71 | the whole text of the first title element, untrimmed, or "" |
| Crawler.MetaContent | internal/crawl/crawler.go:72-75 | the content attribute of the first meta element whose key attribute has the given value, or "" when there is no such element or it has no content attribute (later matches are not consulted) |
| Crawler.Language | internal/crawl/crawler.go:80 | the lang attribute of the first html element, or "" |
| Crawler.ImageUrlAsWritten | internal/crawl/crawler.go:76-79 | the image URL as the code computes it: the og:image query matches nothing, so only meta name=image counts |
| Crawler.ImageUrl | internal/crawl/crawler.go:76-79 | the image URL by the intended rule: og:image content, else meta name=image content (its property is ImageUrlProvenance) |
| Crawler.Page | internal/crawl/crawler.go:70-112 | the record of a parsed page: title, description, keywords, author and language from the tree as parsed, imageUrl by the corrected og:image rule `ImageUrl` (not the selector as written), content, links, images and headings from the cleaned tree (its properties are PageFields and NoiseNeverReachesThePage) |
| Crawler.Crawl | internal/crawl/crawler.go:34-113 | FetchPage as a function: validation, request, send, read and parse in turn, the first failure wrapped in its message; on success the record of `Page`, whose imageUrl follows the corrected og:image rule (its properties are RejectedBeforeAnyRequest and SuccessOnlyAfterEveryStep) |
| Crawler.FetchPage | internal/crawl/crawler.go:34-113 | the steps run in source order over one shared document, the first failing step decides the wrapped error, and a page is built only after every step succeeded |
| Crawler.FetchError.Message | internal/crawl/crawler.go:39-67 | the text of each failure: the step's prefix ("URL validation failed: ", "failed to create request: ", "failed to fetch URL: ", "failed to read response body: ", "failed to parse HTML: ") followed by the wrapped error's text |
| Crawler.RejectedBeforeAnyRequest | internal/crawl/crawler.go:38-40 | a refused URL gives the wrapped validation error whatever the context, the transport and the parser: nothing is sent |
| Crawler.SuccessOnlyAfterEveryStep | internal/crawl/crawler.go:38-68 | a page comes back only for a safe URL, a live context, a complete response and a body that parsed, and is built from that response |
| Crawler.FtpRefusedWithMessage | internal/crawl/crawler.go:38-39 | an ftp URL fails with "URL validation failed: unsupported protocol: ftp" |
| Crawler.PageFields | internal/crawl/crawler.go:96-112 | the URL is returned verbatim, the content length is the body's byte count, links and images are distinct, non-empty and verbatim, headings are non-empty and trimmed, content is the kept lines joined by newlines |
| Crawler.NoiseNeverReachesThePage | internal/crawl/crawler.go:83-106 | a script, style, nav or footer subtree, at any depth of the tree, changes neither the content nor the links, images or headings of the page |
| Crawler.FirstOfFind | internal/crawl/crawler.go:71-80 | the first match of a query is an element of the tree that satisfies the selector |
| Crawler.ImageUrlProvenance | internal/crawl/crawler.go:76-79 | a non-empty image URL is the content of a meta og:image or meta name=image element, and og:image wins when non-empty |
| Crawler.OpenGraphSelectorNeverCompiles | internal/crawl/crawler.go:76 | og:image is not a CSS identifier, so the unquoted selector matches nothing and only meta name=image can supply the image URL |
| Crawler.OgOnlyPageQueries | internal/crawl/crawler.go:76-79 | on a page declaring only og:image, the meta name=image query is empty and the quoted og:image query finds the og:image meta element |
| Crawler.OpenGraphImageLostAsWritten | internal/crawl/crawler.go:76-79 | on a page declaring only og:image the code as written reports no image, while the intended rule reports it |

## Left out

- Crawler.FetchPage, Crawler.Crawl, Crawler.Page: the record's `imageUrl` comes from the corrected rule `Crawler.ImageUrl`, not from the selector as written, which never matches og:image (`Crawler.ImageUrlAsWritten`, see "## Findings"); on a page declaring only og:image the code reports "" where the model reports the og:image URL.
- The HTTP client, its timeout and the User-Agent header: the round trip is the `transport` field of `Crawler.Env`, one outcome per URL.
- The wording of errors that come from the Go libraries (url.Parse, the client, the reader, the parser) is carried through as an opaque string; a cancelled context is reported as "context canceled" without the method and URL that Go's url.Error adds.
- `url.Parse` and `net.ParseIP` are parameters; `Hostname` and the IP classification are modelled, but the parsers' own grammar is not.
- The HTML parser is a parameter returning a forest of elements and text nodes; comments, doctype nodes and the parser's tree repairs are not modelled.
- `doc.Find("body").Find(...)` is modelled as the descendants of each body in turn; goquery also removes duplicate nodes across bodies, which can only matter for a tree with nested bodies, and the HTML parser builds one.
- The `seen` map of extractLinks and extractImages is a set; only membership is ever read.
- The `cleanContent` branch of FetchPage refers to a field and a function the package does not define, so it is treated as never taken.
- `FetchedAt` and `ElapsedSeconds` read the clock and are not fields of `Crawler.PageContent`.
- `Crawler.IsCssIdentifier` leaves out backslash escapes in selector values.
- internal/mcp/server.go, cmd/server/main.go and the tests are not part of this model.

## Findings

| source | as written | input that shows it | evidently intended | confidence | as-written member | corrected member |
|---|---|---|---|---|---|---|
| internal/crawl/crawler.go:76 | the selector `meta[property=og:image]` writes the value unquoted; `og:image` is not a CSS identifier, so the selector fails to compile, goquery matches nothing and the og:image value is never used | a page whose only image declaration is `<meta property="og:image" content="cover.png">`: ImageURL is "" | the og:image content, falling back to meta name=image (the selector written `meta[property="og:image"]`) | medium: follows the CSS selector grammar of the selector engine goquery uses; not executed | Crawler.ImageUrlAsWritten, Crawler.OpenGraphImageLostAsWritten | Crawler.ImageUrl, Crawler.ImageUrlProvenance |
