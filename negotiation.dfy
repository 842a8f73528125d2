/** The show action of the content controller: which representation a
    request gets, from the format it asks for and the content's mime type.

    The responder declares, in order, html, xml, then (only when the content
    has a mime type) the mime type's own symbol and a catch-all. A request for
    any format takes the first declaration; a request for a declared format
    takes that declaration; any other format takes the catch-all when there is
    one, and is not acceptable otherwise. */
module Negotiation {

  import opened CmsTypes

  datatype ShowResponse =
    | RenderHtml
    | RenderXml
      /** `send_data` of the content's bytes; `header` is the Content-type
          header the action sets itself, if any. */
    | SendData(data: seq<byte>, filename: string, contentType: string,
               disposition: string, header: Option<string>)
    | NotAcceptable

  /** `content_options[:disposition].to_s`: nil renders as the empty string. */
  function DispositionText(cls: ContentClass): string {
    if cls.disposition.Some? then cls.disposition.value else ""
  }

  function Show(req: Requested, content: Content, cls: ContentClass): (r: ShowResponse)
    ensures req == AnyFormat ==> r == RenderHtml
    ensures req == Format("html") ==> r == RenderHtml
    ensures req == Format("xml") ==> r == RenderXml
    ensures r.SendData? <==>
      content.mime.Some? && req.Format? && req.name != "html" && req.name != "xml"
    ensures r == NotAcceptable <==>
      content.mime.None? && req.Format? && req.name != "html" && req.name != "xml"
    ensures r.SendData? ==>
      && r.data == content.data
      && r.filename == content.filename
      && r.contentType == content.contentType
      && r.disposition == DispositionText(cls)
    ensures r.SendData? ==>
      (r.header.None? <==> req.name == content.mime.value.symbol) &&
      (r.header.Some? ==> r.header.value == content.mime.value.name)
  {
    match req
    case AnyFormat => RenderHtml
    case Format(f) =>
      if f == "html" then RenderHtml
      else if f == "xml" then RenderXml
      else if content.mime.Some? then
        var header := if f == content.mime.value.symbol then None else Some(content.mime.value.name);
        SendData(content.data, content.filename, content.contentType, DispositionText(cls), header)
      else NotAcceptable
  }
}
