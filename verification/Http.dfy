/** The parts of net/http that fileserver.go touches: a request and the response under construction. */
module Http {
  import opened GoStrings

  /** The header fields the modelled code reads or writes, by canonical name. */
  datatype Field =
    | IfMatch | IfNoneMatch | IfModifiedSince | IfUnmodifiedSince | IfRange | Range | AcceptEncoding
    | Etag | LastModified | ContentType | ContentLength | ContentRange | ContentEncoding
    | AcceptRanges | Location

  type Header = map<Field, string>

  /** http.Header.Get for single-valued fields: a missing field reads as "". */
  function Get(header: Header, name: Field): string {
    if name in header then header[name] else ""
  }

  datatype Request = Request(verb: string, path: string, query: string, header: Header) {
    function Header(name: Field): string {
      Get(header, name)
    }

    predicate GetOrHead() {
      verb == "GET" || verb == "HEAD"
    }

    function With(name: Field, value: string): Request {
      this.(header := header[name := value])
    }
  }

  /** The headers http.Error leaves. */
  function ErrorHeader(header: Header): Header {
    (header - {ContentLength})[ContentType := "text/plain; charset=utf-8"]
  }

  /** http.ResponseWriter; `status` is 0 until WriteHeader is called. */
  class ResponseWriter {
    var header: Header
    var status: int
    var body: string

    constructor ()
      ensures header == map[] && status == 0 && body == ""
    {
      header, status, body := map[], 0, "";
    }

    method Set(name: Field, value: string)
      modifies this`header
      ensures header == old(header)[name := value]
    {
      header := header[name := value];
    }

    method Delete(name: Field)
      modifies this`header
      ensures header == old(header) - {name}
    {
      header := header - {name};
    }

    method WriteHeader(code: int)
      modifies this`status
      ensures status == code
    {
      status := code;
    }

    /** http.Error */
    method Error(message: string, code: int)
      modifies this
      ensures status == code && body == old(body) + message + "\n"
      ensures header == ErrorHeader(old(header))
      ensures Get(header, ContentType) == "text/plain; charset=utf-8" && Get(header, ContentLength) == ""
      ensures forall f :: f !in {ContentType, ContentLength} ==> Get(header, f) == Get(old(header), f)
    {
      header := ErrorHeader(header);
      status := code;
      body := body + message + "\n";
    }
  }
}
