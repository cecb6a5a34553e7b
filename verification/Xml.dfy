/** XML documents as far as the protocol code looks into them. Decoding itself is library code and
    enters as a function from bytes to `Doc`. */
module Xml {
  import opened Text

  /** `decodes` says whether the decoder gets through the whole document without an error; the
      attributes may have been filled in before it fails. `errorCode` is 0 without an error element. */
  datatype Doc =
    | NotXml
    | Element(
        root: string, decodes: bool, command: string, success: int, userId: string, ideKey: string,
        errorCode: int, tid: string, encoding: string, value: string)

  type Decoder = string -> Doc

  datatype Message =
    | Response(command: string, success: int, errorCode: int, tid: string, encoding: string, value: string)
    | CtrlResponse
    | Init
    | Notify
    | StreamMessage
    | ProxyInitReply(success: int)
    | ProxyStopReply(success: int)
    | CloudInitReply(success: int)
    | CloudStopReply(success: int)

  /** `FormatXML`: the decoders are tried in this order, and the first that accepts wins. */
  function FormatXml(doc: Doc): Option<Message> {
    if doc.NotXml? || !doc.decodes then None
    else if doc.root == "response" then
      Some(Response(doc.command, doc.success, doc.errorCode, doc.tid, doc.encoding, doc.value))
    else if doc.root == "ctrl-response" then Some(CtrlResponse)
    else if doc.root == "init" then Some(Init)
    else if doc.root == "notify" then Some(Notify)
    else if doc.root == "stream" then Some(StreamMessage)
    else if doc.root == "proxyinit" then Some(ProxyInitReply(doc.success))
    else if doc.root == "proxystop" then Some(ProxyStopReply(doc.success))
    else if doc.root == "cloudinit" then Some(CloudInitReply(doc.success))
    else if doc.root == "cloudstop" then Some(CloudStopReply(doc.success))
    else None
  }

  predicate IsSuccess(m: Message) {
    match m
    case Response(command, success, _, _, _, _) => success == 1 || command == "detach"
    case ProxyInitReply(success) => success == 1
    case ProxyStopReply(success) => success == 1
    case CloudInitReply(success) => success == 1
    case CloudStopReply(success) => success == 1
    case _ => true
  }

  /** A response whose value is printed as a source listing: an error would be printed instead. */
  predicate IsSource(m: Message) {
    m.Response? && m.command == "source" && m.errorCode == 0
  }

  predicate ExpectsMore(m: Message) {
    || (m.Response? && m.command == "break")
    || m.Notify? || m.StreamMessage? || m.CloudInitReply?
  }

  predicate ShouldClose(m: Message) {
    || (m.Response? && (m.command == "detach" || m.command == "stop"))
    || m.CloudStopReply?
  }

  /** Which documents are understood, which of them announce more packets, which ask to close, and which
      report a failure: a table over the root tag, the command and the success attribute. */
  lemma MessageTable(doc: Doc)
    ensures FormatXml(doc).Some? <==>
      && doc.Element? && doc.decodes
      && (|| doc.root == "response" || doc.root == "ctrl-response" || doc.root == "init" || doc.root == "notify"
          || doc.root == "stream" || doc.root == "proxyinit" || doc.root == "proxystop"
          || doc.root == "cloudinit" || doc.root == "cloudstop")
    ensures FormatXml(doc).Some? ==>
      (ExpectsMore(FormatXml(doc).value) <==>
       || doc.root == "notify" || doc.root == "stream" || doc.root == "cloudinit"
       || (doc.root == "response" && doc.command == "break"))
    ensures FormatXml(doc).Some? ==>
      (ShouldClose(FormatXml(doc).value) <==>
       || doc.root == "cloudstop"
       || (doc.root == "response" && (doc.command == "detach" || doc.command == "stop")))
    ensures FormatXml(doc).Some? ==>
      (!IsSuccess(FormatXml(doc).value) <==>
       && doc.success != 1
       && (|| doc.root == "proxyinit" || doc.root == "proxystop" || doc.root == "cloudinit" || doc.root == "cloudstop"
           || (doc.root == "response" && doc.command != "detach")))
  {
  }

  /** The forwarder's test for a packet that ends a debugging session. */
  predicate Closes(doc: Doc) {
    FormatXml(doc).Some? && ShouldClose(FormatXml(doc).value)
  }

  /** Which packets end a debugging session, on the document itself. */
  lemma ClosesTable(doc: Doc)
    ensures Closes(doc) <==>
      && doc.Element? && doc.decodes
      && (doc.root == "cloudstop"
          || (doc.root == "response" && (doc.command == "detach" || doc.command == "stop")))
  {
  }

  /** `IsValidXml`. */
  predicate IsValidXml(data: string) {
    "<?xml" <= data
  }

  /** What `ParseInitXML` leaves in its result, whether or not it also returns an error. */
  function InitUser(doc: Doc): string {
    if doc.Element? && doc.root == "init" then doc.userId else ""
  }

  function InitKey(doc: Doc): string {
    if doc.Element? && doc.root == "init" then doc.ideKey else ""
  }
}
