/** The 61 fields every HPACK decoder knows (appendix A of RFC 7541). */
module HpackStatic {
  import opened Bytes
  import opened HpackTable

  const STATIC_COUNT: nat := 61

  function Ascii(s: string): seq<byte> { seq(|s|, i requires 0 <= i < |s| => s[i] as int % 256) }

  function Field(name: string, value: string): Header { Header(Ascii(name), Ascii(value)) }

  /** Field `index`, counted from 1. */
  function Static(index: nat): Header {
    match index
    case 1 => Field(":authority", "")
    case 2 => Field(":method", "GET")
    case 3 => Field(":method", "POST")
    case 4 => Field(":path", "/")
    case 5 => Field(":path", "/index.html")
    case 6 => Field(":scheme", "http")
    case 7 => Field(":scheme", "https")
    case 8 => Field(":status", "200")
    case 9 => Field(":status", "204")
    case 10 => Field(":status", "206")
    case 11 => Field(":status", "304")
    case 12 => Field(":status", "400")
    case 13 => Field(":status", "404")
    case 14 => Field(":status", "500")
    case 15 => Field("accept-charset", "")
    case 16 => Field("accept-encoding", "gzip, deflate")
    case 17 => Field("accept-language", "")
    case 18 => Field("accept-ranges", "")
    case 19 => Field("accept", "")
    case 20 => Field("access-control-allow-origin", "")
    case 21 => Field("age", "")
    case 22 => Field("allow", "")
    case 23 => Field("authorization", "")
    case 24 => Field("cache-control", "")
    case 25 => Field("content-disposition", "")
    case 26 => Field("content-encoding", "")
    case 27 => Field("content-language", "")
    case 28 => Field("content-length", "")
    case 29 => Field("content-location", "")
    case 30 => Field("content-range", "")
    case 31 => Field("content-type", "")
    case 32 => Field("cookie", "")
    case 33 => Field("date", "")
    case 34 => Field("etag", "")
    case 35 => Field("expect", "")
    case 36 => Field("expires", "")
    case 37 => Field("from", "")
    case 38 => Field("host", "")
    case 39 => Field("if-match", "")
    case 40 => Field("if-modified-since", "")
    case 41 => Field("if-none-match", "")
    case 42 => Field("if-range", "")
    case 43 => Field("if-unmodified-since", "")
    case 44 => Field("last-modified", "")
    case 45 => Field("link", "")
    case 46 => Field("location", "")
    case 47 => Field("max-forwards", "")
    case 48 => Field("proxy-authenticate", "")
    case 49 => Field("proxy-authorization", "")
    case 50 => Field("range", "")
    case 51 => Field("referer", "")
    case 52 => Field("refresh", "")
    case 53 => Field("retry-after", "")
    case 54 => Field("server", "")
    case 55 => Field("set-cookie", "")
    case 56 => Field("strict-transport-security", "")
    case 57 => Field("transfer-encoding", "")
    case 58 => Field("user-agent", "")
    case 59 => Field("vary", "")
    case 60 => Field("via", "")
    case 61 => Field("www-authenticate", "")
    case _ => Field("", "")
  }
}
