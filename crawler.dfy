/**
 * Crawler.FetchPage: validate the URL, build and send the GET request, read
 * the body, parse it, then fill a PageContent from the tree. The HTTP client,
 * the URL and IP parsers and the HTML parser are the caller-supplied
 * collaborators of Env; everything the crawler itself decides is modelled.
 */
module Crawler {
  import opened Base
  import opened Text
  import opened UrlSafety
  import opened Markup
  import opened Extract

  /** The record FetchPage returns on success (FetchedAt and ElapsedSeconds are not modelled). */
  datatype PageContent = PageContent(
    url: string,
    title: string,
    description: string,
    keywords: string,
    author: string,
    imageUrl: string,
    content: string,
    links: seq<string>,
    images: seq<string>,
    headings: seq<string>,
    statusCode: int,
    contentLength: nat,
    language: string)

  /** The step at which FetchPage gave up, with the error it wraps. */
  datatype FetchError =
    | ValidationFailed(reason: ValidationError)
    | RequestFailed(cause: string)
    | SendFailed(cause: string)
    | ReadFailed(cause: string)
    | ParseFailed(cause: string)
  {
    /** The text of the wrapped error that FetchPage returns. */
    function Message(): string {
      match this
      case ValidationFailed(reason) => "URL validation failed: " + reason.Message()
      case RequestFailed(cause) => "failed to create request: " + cause
      case SendFailed(cause) => "failed to fetch URL: " + cause
      case ReadFailed(cause) => "failed to read response body: " + cause
      case ParseFailed(cause) => "failed to parse HTML: " + cause
    }
  }

  /**
   * The caller's context as far as FetchPage can tell: none at all (request
   * creation refuses it), already cancelled (the client refuses to send), or
   * live (the transport decides).
   */
  datatype Context = NilContext | Cancelled | Live

  /** How reading the response body ended. */
  datatype BodyRead = Complete(bytes: seq<byte>) | Interrupted(cause: string)

  /** What the HTTP client's Do produced for a GET of the URL. */
  datatype Exchange = Unreachable(cause: string) | Responded(statusCode: int, body: BodyRead)

  /** The collaborators FetchPage calls: url.Parse, net.ParseIP, the HTTP round trip and the HTML parser. */
  datatype Env = Env(
    parseUrl: string -> Result<Url, string>,
    parseIp: string -> Option<IP>,
    transport: string -> Exchange,
    parseHtml: seq<byte> -> Result<seq<Node>, string>)

  predicate IsTitle(n: Node) {
    n.Element? && n.tag == "title"
  }

  predicate IsHtml(n: Node) {
    n.Element? && n.tag == "html"
  }

  /** The selector meta[key=value]. */
  predicate IsMeta(n: Node, key: string, value: string) {
    n.Element? && n.tag == "meta" && HasAttrValue(n, key, value)
  }

  /** Selection.Attr(name) on a whole selection: the attribute of its first node only, "" when empty. */
  function FirstAttr(sel: seq<Node>, name: string): string {
    if sel == [] then "" else AttrOrEmpty(sel[0], name)
  }

  /** doc.Find("title").First().Text(): the whole text of the first title element, untrimmed. */
  function TitleOf(f: seq<Node>): string {
    match First(Find(f, IsTitle))
    case None => ""
    case Some(t) => NodeText(t)
  }

  function MetaSelector(key: string, value: string): Node -> bool {
    n => IsMeta(n, key, value)
  }

  /** doc.Find("meta[key=value]").Attr("content"), for a selector that compiles. */
  function MetaContent(f: seq<Node>, key: string, value: string): string {
    FirstAttr(Find(f, MetaSelector(key, value)), "content")
  }

  /** doc.Find("html").Attr("lang"). */
  function Language(f: seq<Node>): string {
    FirstAttr(Find(f, IsHtml), "lang")
  }

  /** A letter, '_' or a non-ASCII character: what may start a CSS name. */
  predicate IsNameStart(c: char) {
    ('a' <= c <= 'z') || ('A' <= c <= 'Z') || c == '_' || c > '\U{007F}'
  }

  /** What may continue a CSS name. */
  predicate IsNameChar(c: char) {
    IsNameStart(c) || c == '-' || ('0' <= c <= '9')
  }

  /** Every character continues a CSS name. */
  predicate IsNameTail(s: string) {
    s == [] || (IsNameChar(s[0]) && IsNameTail(s[1..]))
  }

  /**
   * An unquoted attribute value the selector compiler accepts: an optional
   * '-', a name-start character, then name characters (escapes are not
   * modelled).
   */
  predicate IsCssIdentifier(s: string) {
    var body := if s != [] && s[0] == '-' then s[1..] else s;
    body != [] && IsNameStart(body[0]) && IsNameTail(body[1..])
  }

  /**
   * doc.Find("meta[key=value]").Attr("content") with the value written
   * unquoted in the selector: when the value is not an identifier the
   * selector does not compile, goquery matches nothing, and the result is "".
   */
  function UnquotedMetaContent(f: seq<Node>, key: string, value: string): string {
    if IsCssIdentifier(value) then MetaContent(f, key, value) else ""
  }

  /** The image URL as FetchPage's code computes it, og:image written unquoted in its selector. */
  function ImageUrlAsWritten(f: seq<Node>): string {
    var og := UnquotedMetaContent(f, "property", "og:image");
    if og == "" then UnquotedMetaContent(f, "name", "image") else og
  }

  /** The image URL as intended: the og:image content, or else the meta name=image content. */
  function ImageUrl(f: seq<Node>): string {
    var og := MetaContent(f, "property", "og:image");
    if og == "" then MetaContent(f, "name", "image") else og
  }

  /**
   * The record built from a parsed page. Title, meta data and language are
   * read before the extraction removes script, style, nav and footer; the
   * content, links, images and headings are read from the cleaned tree.
   */
  function Page(url: string, statusCode: int, body: seq<byte>, nodes: seq<Node>): PageContent {
    var clean := Prune(nodes);
    PageContent(
      url := url,
      title := TitleOf(nodes),
      description := MetaContent(nodes, "name", "description"),
      keywords := MetaContent(nodes, "name", "keywords"),
      author := MetaContent(nodes, "name", "author"),
      imageUrl := ImageUrl(nodes),
      content := MainContent(clean),
      links := Links(clean),
      images := Images(clean),
      headings := Headings(clean),
      statusCode := statusCode,
      contentLength := |body|,
      language := Language(nodes))
  }

  /** FetchPage as a function of its inputs: each step in order, the first failure decides. */
  function Crawl(ctx: Context, url: string, env: Env): Result<PageContent, FetchError> {
    match ValidateUrl(url, env.parseUrl, env.parseIp)
    case Rejected(reason) => Failure(ValidationFailed(reason))
    case Allowed =>
      if ctx.NilContext? then Failure(RequestFailed("net/http: nil Context"))
      else if ctx.Cancelled? then Failure(SendFailed("context canceled"))
      else match env.transport(url)
        case Unreachable(cause) => Failure(SendFailed(cause))
        case Responded(_, Interrupted(cause)) => Failure(ReadFailed(cause))
        case Responded(status, Complete(body)) =>
          match env.parseHtml(body)
          case Failure(cause) => Failure(ParseFailed(cause))
          case Success(nodes) => Success(Page(url, status, body, nodes))
  }

  /**
   * FetchPage: the steps in source order over one shared document. The main
   * content pass removes the noise elements in place, so the links, images
   * and headings passes that follow read the cleaned tree.
   */
  method FetchPage(ctx: Context, url: string, env: Env) returns (r: Result<PageContent, FetchError>)
    ensures r == Crawl(ctx, url, env)
  {
    var verdict := ValidateUrl(url, env.parseUrl, env.parseIp);
    if verdict.Rejected? {
      return Failure(ValidationFailed(verdict.reason));
    }
    if ctx.NilContext? {
      return Failure(RequestFailed("net/http: nil Context"));
    }
    if ctx.Cancelled? {
      return Failure(SendFailed("context canceled"));
    }
    var resp := env.transport(url);
    if resp.Unreachable? {
      return Failure(SendFailed(resp.cause));
    }
    if resp.body.Interrupted? {
      return Failure(ReadFailed(resp.body.cause));
    }
    var body := resp.body.bytes;
    var parsed := env.parseHtml(body);
    if parsed.Failure? {
      return Failure(ParseFailed(parsed.error));
    }
    var doc := new Document(parsed.value);
    var title := TitleOf(doc.nodes);
    var description := MetaContent(doc.nodes, "name", "description");
    var keywords := MetaContent(doc.nodes, "name", "keywords");
    var author := MetaContent(doc.nodes, "name", "author");
    var ogImage := MetaContent(doc.nodes, "property", "og:image");
    if ogImage == "" {
      ogImage := MetaContent(doc.nodes, "name", "image");
    }
    var language := Language(doc.nodes);
    var content := ExtractMainContent(doc);
    var links := ExtractLinks(doc, url);
    var images := ExtractImages(doc, url);
    var headings := ExtractHeadings(doc);
    r := Success(PageContent(
      url := url,
      title := title,
      description := description,
      keywords := keywords,
      author := author,
      imageUrl := ogImage,
      content := content,
      links := links,
      images := images,
      headings := headings,
      statusCode := resp.statusCode,
      contentLength := |body|,
      language := language));
  }

  /**
   * A refused URL ends FetchPage before any request exists: the result is the
   * validation error whatever the context, the transport and the parser.
   */
  lemma RejectedBeforeAnyRequest(ctx: Context, url: string, env: Env, ctx': Context, env': Env)
    requires ValidateUrl(url, env.parseUrl, env.parseIp).Rejected?
    requires env'.parseUrl == env.parseUrl && env'.parseIp == env.parseIp
    ensures Crawl(ctx, url, env) == Failure(ValidationFailed(ValidateUrl(url, env.parseUrl, env.parseIp).reason))
    ensures Crawl(ctx', url, env') == Crawl(ctx, url, env)
  {
  }

  /**
   * A page comes back only when every step succeeded: the URL is a safe
   * target, the context is live, the response arrived and was read in full,
   * and the body parsed; the page is then built from exactly that response.
   */
  lemma SuccessOnlyAfterEveryStep(ctx: Context, url: string, env: Env)
    requires Crawl(ctx, url, env).Success?
    ensures IsSafeTarget(url, env.parseUrl, env.parseIp)
    ensures ctx == Live
    ensures env.transport(url).Responded? && env.transport(url).body.Complete?
    ensures var body := env.transport(url).body.bytes;
            env.parseHtml(body).Success? &&
            Crawl(ctx, url, env).value == Page(url, env.transport(url).statusCode, body, env.parseHtml(body).value)
  {
  }

  /** An ftp URL is refused with the scheme named in the wrapped message. */
  lemma FtpRefusedWithMessage(ctx: Context, url: string, env: Env, host: string)
    requires env.parseUrl(url) == Success(Url("ftp", host))
    ensures Crawl(ctx, url, env) == Failure(ValidationFailed(UnsupportedProtocol("ftp")))
    ensures Crawl(ctx, url, env).error.Message() == "URL validation failed: unsupported protocol: ftp"
  {
    SchemeCheckedFirst(url, env.parseUrl, env.parseIp);
    RejectedBeforeAnyRequest(ctx, url, env, ctx, env);
    FtpMessageText();
  }

  lemma FtpMessageText()
    ensures ValidationFailed(UnsupportedProtocol("ftp")).Message() == "URL validation failed: unsupported protocol: ftp"
  {
    assert UnsupportedProtocol("ftp").Message() == "unsupported protocol: ftp";
  }

  /** The first node of a selection comes from the tree and satisfies the selector. */
  lemma FirstOfFind(f: seq<Node>, p: Node -> bool)
    requires Find(f, p) != []
    ensures Find(f, p)[0] in Elements(f) && p(Find(f, p)[0])
  {
    assert Find(f, p)[0] in Find(f, p);
  }

  /**
   * A non-empty image URL is the content attribute of a meta element whose
   * property is og:image or whose name is image, and og:image wins when it
   * gives a non-empty value.
   */
  lemma ImageUrlProvenance(f: seq<Node>)
    ensures ImageUrl(f) != "" ==>
              exists e :: e in Elements(f) && e.Element? && e.tag == "meta" &&
                (HasAttrValue(e, "property", "og:image") || HasAttrValue(e, "name", "image")) &&
                AttrOrEmpty(e, "content") == ImageUrl(f)
    ensures MetaContent(f, "property", "og:image") != "" ==> ImageUrl(f) == MetaContent(f, "property", "og:image")
  {
    var og := Find(f, MetaSelector("property", "og:image"));
    var named := Find(f, MetaSelector("name", "image"));
    if og != [] {
      FirstOfFind(f, MetaSelector("property", "og:image"));
    }
    if named != [] {
      FirstOfFind(f, MetaSelector("name", "image"));
    }
  }

  /** The as-written og:image selector never matches, so only meta name=image can supply the image URL. */
  lemma OpenGraphSelectorNeverCompiles(f: seq<Node>)
    ensures !IsCssIdentifier("og:image")
    ensures IsCssIdentifier("image")
    ensures ImageUrlAsWritten(f) == MetaContent(f, "name", "image")
  {
    assert "og:image"[1..] == "g:image" && "g:image"[1..] == ":image";
    assert !IsNameTail(":image");
    assert "image"[1..] == "mage" && "mage"[1..] == "age" && "age"[1..] == "ge" && "ge"[1..] == "e" && "e"[1..] == "";
    assert IsNameTail("e");
    assert IsNameTail("ge");
    assert IsNameTail("age");
    assert IsNameTail("mage");
  }

  /** A meta element that declares an Open Graph image and nothing else. */
  const OgMeta: Node := Element("meta", [Attr("property", "og:image"), Attr("content", "cover.png")], [])

  /** A page whose only image declaration is OgMeta. */
  const OgOnlyPage: seq<Node> := [Element("html", [], [Element("head", [], [OgMeta])])]

  lemma OgOnlyPageElements()
    ensures Elements(OgOnlyPage) == [OgOnlyPage[0], Element("head", [], [OgMeta]), OgMeta]
  {
    var head := Element("head", [], [OgMeta]);
    assert [OgMeta][1..] == [] && [head][1..] == [] && OgOnlyPage[1..] == [];
    assert Elements([OgMeta]) == [OgMeta];
    assert Elements([head]) == [head, OgMeta];
  }

  /** On that page the og:image query finds the one meta element, and the name=image query finds nothing. */
  lemma OgOnlyPageQueries()
    ensures Find(OgOnlyPage, MetaSelector("property", "og:image")) == [OgMeta]
    ensures Find(OgOnlyPage, MetaSelector("name", "image")) == []
  {
    var head := Element("head", [], [OgMeta]);
    var all := [OgOnlyPage[0], head, OgMeta];
    OgOnlyPageElements();
    var og := MetaSelector("property", "og:image");
    var named := MetaSelector("name", "image");
    assert OgMeta.attrs[0] == Attr("property", "og:image");
    assert !named(OgMeta) by {
      assert forall i :: 0 <= i < |OgMeta.attrs| ==> OgMeta.attrs[i] != Attr("name", "image");
    }
    assert !og(all[0]) && !og(head) && og(OgMeta);
    assert !named(all[0]) && !named(head);
    assert all[1..] == [head, OgMeta] && [head, OgMeta][1..] == [OgMeta] && [OgMeta][1..] == [];
    assert Select([OgMeta], named) == [];
    assert Select([head, OgMeta], named) == [];
    assert Select([OgMeta], og) == [OgMeta];
    assert Select([head, OgMeta], og) == [OgMeta];
  }

  /** On that page the code as written reports no image; the intended rule reports the og:image content. */
  lemma OpenGraphImageLostAsWritten()
    ensures ImageUrlAsWritten(OgOnlyPage) == ""
    ensures ImageUrl(OgOnlyPage) == "cover.png"
  {
    OgOnlyPageQueries();
    OpenGraphSelectorNeverCompiles(OgOnlyPage);
    assert OgMeta.attrs[1] == Attr("content", "cover.png");
    assert AttrValue(OgMeta.attrs, "content") == Some("cover.png");
  }

  /**
   * What FetchPage promises about a page it returns: the URL verbatim, the
   * body's byte count, links and images distinct, non-empty and verbatim
   * attribute values of the cleaned tree, headings non-empty and trimmed,
   * content the kept lines joined by newlines.
   */
  lemma PageFields(url: string, statusCode: int, body: seq<byte>, nodes: seq<Node>)
    ensures var p := Page(url, statusCode, body, nodes);
            p.url == url && p.statusCode == statusCode && p.contentLength == |body|
    ensures var p := Page(url, statusCode, body, nodes);
            "" !in p.links && NoDuplicates(p.links) &&
            forall l :: l in p.links ==> exists e :: e in Find(Prune(nodes), IsLink) && AttrOrEmpty(e, "href") == l
    ensures var p := Page(url, statusCode, body, nodes);
            "" !in p.images && NoDuplicates(p.images) &&
            forall s :: s in p.images ==> exists e :: e in Find(Prune(nodes), IsImage) && AttrOrEmpty(e, "src") == s
    ensures var p := Page(url, statusCode, body, nodes);
            forall i :: 0 <= i < |p.headings| ==> p.headings[i] != "" && IsTrimmed(p.headings[i])
    ensures var p := Page(url, statusCode, body, nodes);
            p.content == Join(ContentLines(Prune(nodes))) && IsTrimmed(p.content)
  {
    var clean := Prune(nodes);
    LinksAreVerbatimHrefs(clean);
    ImagesAreVerbatimSources(clean);
    HeadingsAreTrimmed(clean);
    MainContentIsJoinedLines(clean);
  }

  /**
   * A script, style, nav or footer subtree, wherever it sits in the tree,
   * leaves no trace in the content, links, images or headings, because the
   * removal runs before they are read.
   */
  lemma NoiseNeverReachesThePage(url: string, statusCode: int, body: seq<byte>, c: Ctx, n: Node)
    requires IsNoise(n)
    ensures var p := Page(url, statusCode, body, Fill(c, [n]));
            var q := Page(url, statusCode, body, Fill(c, []));
            p.content == q.content && p.links == q.links && p.images == q.images && p.headings == q.headings
  {
    NoiseAnywhereInvisible(c, n);
  }

}
