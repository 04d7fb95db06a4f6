/** `extractFileNameFromUrl` (src/worker.js:147-159): the last path
    segment of the URL, cut at the first `?`, percent-decoded; any failure
    gives the fixed name `unknown_file`. */
module FileName {
  import opened Wrappers
  import Percent

  /** What the WHATWG URL parser yields for the purpose of this function:
      the pathname, or a parse failure (`new URL` throwing). */
  datatype ParsedUrl = ParseFailure | Parsed(pathname: string)

  const Fallback: string := "unknown_file"

  /** `path.split('/').pop()`: the text after the last `/`, or all of it. */
  function LastSegment(path: string): (seg: string)
    ensures |seg| <= |path| && seg == path[|path| - |seg|..]
    ensures '/' !in seg
    ensures |seg| == |path| || path[|path| - |seg| - 1] == '/'
  {
    if path == [] then []
    else if path[|path| - 1] == '/' then []
    else LastSegment(path[..|path| - 1]) + [path[|path| - 1]]
  }

  /** `seg.split('?')[0]`: the text before the first `?`, or all of it. */
  function BeforeQuery(seg: string): (head: string)
    ensures |head| <= |seg| && head == seg[..|head|]
    ensures '?' !in head
    ensures |head| == |seg| || seg[|head|] == '?'
  {
    if seg == [] || seg[0] == '?' then []
    else [seg[0]] + BeforeQuery(seg[1..])
  }

  /** The file name the handler sends and reports. */
  function ExtractFileName(url: ParsedUrl): (name: string)
    ensures url.ParseFailure? ==> name == Fallback
  {
    match url
    case ParseFailure => Fallback
    case Parsed(path) =>
      match Percent.Decode(BeforeQuery(LastSegment(path)))
      case None => Fallback
      case Some(decoded) => decoded
  }

  /** The segment after the last `/` is what `LastSegment` returns. */
  lemma LastSegmentAfterSlash(dir: string, seg: string)
    requires '/' !in seg
    ensures LastSegment(dir + "/" + seg) == seg
  {
    var path := dir + "/" + seg;
    var r := LastSegment(path);
    assert path[|dir|] == '/';
    assert path[|path| - |seg|..] == seg;
  }

  /** Text without `?` is kept whole. */
  lemma BeforeQueryNoQuery(seg: string)
    requires '?' !in seg
    ensures BeforeQuery(seg) == seg
  {
  }

  /** Round trip: a file name percent-encoded as the last path segment is
      recovered exactly, whatever reserved characters it holds. */
  lemma ExtractEncodedName(dir: string, name: string)
    ensures ExtractFileName(Parsed(dir + "/" + Percent.Encode(name))) == name
  {
    var e := Percent.Encode(name);
    Percent.EncodeAlphabet(name);
    assert '/' !in e && '?' !in e;
    LastSegmentAfterSlash(dir, e);
    BeforeQueryNoQuery(e);
    Percent.DecodeEncode(name);
  }

  /** A last segment with no `?` and no `%` is the file name as it is. */
  lemma ExtractPlainName(dir: string, name: string)
    requires '/' !in name && '?' !in name && '%' !in name
    ensures ExtractFileName(Parsed(dir + "/" + name)) == name
  {
    LastSegmentAfterSlash(dir, name);
    BeforeQueryNoQuery(name);
    Percent.DecodePlain(name);
  }

  /** A malformed escape in the file name gives the fallback name, not an
      error. */
  lemma ExtractMalformedEscape(dir: string, a: string, b: string)
    requires '/' !in a + "%" + b && '?' !in a + "%" + b
    requires Percent.LeadingOctet("%" + b).None?
    ensures ExtractFileName(Parsed(dir + "/" + a + "%" + b)) == Fallback
  {
    assert dir + "/" + a + "%" + b == dir + "/" + (a + "%" + b);
    LastSegmentAfterSlash(dir, a + "%" + b);
    BeforeQueryNoQuery(a + "%" + b);
    Percent.DecodeRejectsBadEscape(a, b);
  }

  /** The example in the doc comment of `extractFileNameFromUrl`:
      `https://example.com/path/to/file.mp4?query=1` has pathname `/path/to/file.mp4` and file name `file.mp4`. */
  lemma ExtractDocExample()
    ensures ExtractFileName(Parsed("/path/to/file.mp4")) == "file.mp4"
  {
    assert "/path/to/file.mp4" == "/path/to" + "/" + "file.mp4";
    ExtractPlainName("/path/to", "file.mp4");
  }

  /** Example: `https://google.com/server5/1:/movie.mp4` has pathname
      `/server5/1:/movie.mp4` and file name `movie.mp4`. */
  lemma ExtractMovieExample()
    ensures ExtractFileName(Parsed("/server5/1:/movie.mp4")) == "movie.mp4"
  {
    assert "/server5/1:/movie.mp4" == "/server5/1:" + "/" + "movie.mp4";
    ExtractPlainName("/server5/1:", "movie.mp4");
  }
}
