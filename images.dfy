/**
 * The image table: HTTP GET requests whose lower-cased `host + uri` mentions
 * a GIF, JPEG or PNG file name, one table row per matching extension, with
 * per-type counters and the list of matching URIs.
 */
module Images {
  import opened Packets
  import opened Text

  datatype ImageKind = Gif | Jpg | Png

  /** One table row: from, to, type, file name, link. */
  datatype ImageRow = ImageRow(src: string, dst: string, kind: ImageKind, name: string, link: string)

  /** An extension looked for, and the type it is counted as. */
  datatype Extension = Extension(suffix: string, kind: ImageKind)

  /** The extensions in the order they are tried; `.jpeg` counts as a JPG. */
  const Extensions: seq<Extension> :=
    [Extension("gif", Gif), Extension("jpg", Jpg), Extension("jpeg", Jpg), Extension("png", Png)]

  /** The requested URL as the table shows it: `http://` and the first 100 characters. */
  function Link(uri: string): (l: string)
    ensures |l| == 7 + (if |uri| < 100 then |uri| else 100)
    ensures l[..7] == "http://"
    ensures l[7..] == uri[..|l| - 7]
  {
    "http://" + (if |uri| < 100 then uri else uri[..100])
  }

  /** The extensions whose dotted suffix occurs in the URI, in order. */
  function Matching(uri: string, exts: seq<Extension>): seq<Extension>
    decreases |exts|
  {
    if exts == [] then []
    else (if Contains(uri, "." + exts[0].suffix) then [exts[0]] else []) + Matching(uri, exts[1..])
  }

  /** What one request contributes: rows and URIs added, and whether no exception escaped. */
  datatype Scan = Scan(rows: seq<ImageRow>, uris: seq<string>, ok: bool)

  /**
   * One `if '.ext' in uri` block: when the dotted suffix occurs, one row
   * and the URI, or a failure when no file name can be extracted.
   */
  function Own(src: string, dst: string, uri: string, e: Extension): Scan {
    if !Contains(uri, "." + e.suffix) then Scan([], [], true)
    else match FindName(uri, e.suffix)
      case None => Scan([], [], false)
      case Some(name) => Scan([ImageRow(src, dst, e.kind, name, Link(uri))], [uri], true)
  }

  /** One block followed by the later ones, which a failure skips. */
  function Then(a: Scan, rest: Scan): Scan {
    if !a.ok then a else Scan(a.rows + rest.rows, a.uris + rest.uris, rest.ok)
  }

  /** The extension blocks for `exts`, in order. */
  function ScanFrom(src: string, dst: string, uri: string, exts: seq<Extension>): Scan
    decreases |exts|
  {
    if exts == [] then Scan([], [], true)
    else Then(Own(src, dst, uri, exts[0]), ScanFrom(src, dst, uri, exts[1..]))
  }

  /** The row the block for `e` adds: the first file name with that extension, typed, with the link. */
  predicate RowFor(row: ImageRow, src: string, dst: string, uri: string, e: Extension) {
    && FindName(uri, e.suffix) == Some(row.name)
    && row == ImageRow(src, dst, e.kind, row.name, Link(uri))
  }

  /** The rows follow the occurring extensions `m` one for one, and every URI is the request's. */
  ghost predicate RowsFollow(r: Scan, m: seq<Extension>, src: string, dst: string, uri: string) {
    && |r.uris| == |r.rows| <= |m|
    && forall i :: 0 <= i < |r.rows| ==> r.uris[i] == uri && RowFor(r.rows[i], src, dst, uri, m[i])
  }

  /**
   * The scan succeeds exactly when every occurring extension gave a row; on
   * failure the next occurring extension is the one whose file name could
   * not be extracted.
   */
  predicate EndsRight(r: Scan, m: seq<Extension>, uri: string)
    requires |r.rows| <= |m|
  {
    && (r.ok <==> |r.rows| == |m|)
    && (!r.ok ==> FindName(uri, m[|r.rows|].suffix).None?)
  }

  ghost predicate Follows(r: Scan, m: seq<Extension>, src: string, dst: string, uri: string) {
    RowsFollow(r, m, src, dst, uri) && EndsRight(r, m, uri)
  }

  lemma RowsFollowCons(row: ImageRow, r: Scan, e: Extension, m: seq<Extension>, src: string, dst: string, uri: string)
    requires RowsFollow(r, m, src, dst, uri) && RowFor(row, src, dst, uri, e)
    ensures RowsFollow(Scan([row] + r.rows, [uri] + r.uris, r.ok), [e] + m, src, dst, uri)
  {
    var r', m' := Scan([row] + r.rows, [uri] + r.uris, r.ok), [e] + m;
    assert r'.rows[1..] == r.rows && r'.uris[1..] == r.uris && m'[1..] == m;
    forall i | 0 <= i < |r'.rows|
      ensures r'.uris[i] == uri && RowFor(r'.rows[i], src, dst, uri, m'[i])
    {
      if i > 0 {
        assert r'.rows[i] == r'.rows[1..][i - 1] && r'.uris[i] == r'.uris[1..][i - 1] && m'[i] == m'[1..][i - 1];
      }
    }
  }

  lemma EndsRightCons(row: ImageRow, r: Scan, e: Extension, m: seq<Extension>, uri: string)
    requires |r.rows| <= |m| && EndsRight(r, m, uri)
    ensures EndsRight(Scan([row] + r.rows, [uri] + r.uris, r.ok), [e] + m, uri)
  {
    if !r.ok {
      assert ([e] + m)[|r.rows| + 1] == m[|r.rows|];
    }
  }

  lemma FollowsCons(row: ImageRow, r: Scan, e: Extension, m: seq<Extension>, src: string, dst: string, uri: string)
    requires Follows(r, m, src, dst, uri) && RowFor(row, src, dst, uri, e)
    ensures Follows(Scan([row] + r.rows, [uri] + r.uris, r.ok), [e] + m, src, dst, uri)
  {
    RowsFollowCons(row, r, e, m, src, dst, uri);
    EndsRightCons(row, r, e, m, uri);
  }

  /** The scan of `exts` follows the extensions that occur in the URI. */
  lemma {:induction false} ScanFromMatches(src: string, dst: string, uri: string, exts: seq<Extension>)
    ensures Follows(ScanFrom(src, dst, uri, exts), Matching(uri, exts), src, dst, uri)
    decreases |exts|
  {
    if exts != [] {
      var e := exts[0];
      ScanFromMatches(src, dst, uri, exts[1..]);
      var rest, m := ScanFrom(src, dst, uri, exts[1..]), Matching(uri, exts[1..]);
      if Contains(uri, "." + e.suffix) {
        assert Matching(uri, exts) == [e] + m;
        var found := FindName(uri, e.suffix);
        if found.Some? {
          var row := ImageRow(src, dst, e.kind, found.value, Link(uri));
          FollowsCons(row, rest, e, m, src, dst, uri);
        }
      } else {
        assert Matching(uri, exts) == [] + m;
      }
    }
  }

  lemma Associative<T>(x: seq<T>, y: seq<T>, z: seq<T>)
    ensures (x + y) + z == x + (y + z)
  {
  }

  /** The request's `host + uri`, lower-cased. */
  function RequestUri(host: string, uri: string): string {
    Lower(host + uri)
  }

  /**
   * What a packet contributes. A non-TCP packet adds nothing. A TCP packet
   * whose segment could not be parsed fails; one without a parsable request,
   * or with a request other than GET, adds nothing; a GET without a Host
   * header fails; otherwise the extensions are scanned.
   */
  function Outcome(p: Packet): Scan {
    if p.proto != TCP then Scan([], [], true)
    else if p.segment.None? then Scan([], [], false)
    else
      var http := p.segment.value.http;
      if http.None? || http.value.verb != "GET" then Scan([], [], true)
      else if http.value.host.None? then Scan([], [], false)
      else ScanFrom(p.src, p.dst, RequestUri(http.value.host.value, http.value.uri), Extensions)
  }

  /** Number of rows of one type. */
  function CountKind(rows: seq<ImageRow>, kind: ImageKind): nat
    decreases |rows|
  {
    if rows == [] then 0
    else CountKind(rows[..|rows| - 1], kind) + (if rows[|rows| - 1].kind == kind then 1 else 0)
  }

  /** The three counters together count every row once. */
  lemma {:induction false} CountsCoverRows(rows: seq<ImageRow>)
    ensures CountKind(rows, Gif) + CountKind(rows, Jpg) + CountKind(rows, Png) == |rows|
    decreases |rows|
  {
    if rows != [] {
      CountsCoverRows(rows[..|rows| - 1]);
    }
  }

  lemma CountKindAppend(rows: seq<ImageRow>, row: ImageRow, kind: ImageKind)
    ensures CountKind(rows + [row], kind) == CountKind(rows, kind) + (if row.kind == kind then 1 else 0)
  {
    assert (rows + [row])[..|rows|] == rows;
  }

  /** The three counters count the rows by kind, and each row links to the URI kept beside it. */
  ghost predicate Tallied(rows: seq<ImageRow>, uris: seq<string>, gif: nat, jpg: nat, png: nat) {
    && gif == CountKind(rows, Gif)
    && jpg == CountKind(rows, Jpg)
    && png == CountKind(rows, Png)
    && |uris| == |rows|
    && forall i :: 0 <= i < |rows| ==> rows[i].link == Link(uris[i])
  }

  /** Adding a row with its URI and counting it under its kind keeps the table tallied. */
  lemma TalliedAppend(rows: seq<ImageRow>, uris: seq<string>, gif: nat, jpg: nat, png: nat, row: ImageRow, uri: string)
    requires Tallied(rows, uris, gif, jpg, png) && row.link == Link(uri)
    ensures Tallied(rows + [row], uris + [uri],
                    gif + (if row.kind == Gif then 1 else 0),
                    jpg + (if row.kind == Jpg then 1 else 0),
                    png + (if row.kind == Png then 1 else 0))
  {
    CountKindAppend(rows, row, Gif);
    CountKindAppend(rows, row, Jpg);
    CountKindAppend(rows, row, Png);
  }

  /** An extension whose dotted suffix occurs is among the matching ones. */
  lemma {:induction false} MatchingHas(uri: string, exts: seq<Extension>, e: Extension)
    requires e in exts && Contains(uri, "." + e.suffix)
    ensures e in Matching(uri, exts)
    decreases |exts|
  {
    if exts[0] != e {
      assert e in exts[1..] by { assert exts == [exts[0]] + exts[1..]; }
      MatchingHas(uri, exts[1..], e);
    }
  }

  /**
   * A request for `<name>.<ext>` whose name ends in a file-name character:
   * the block for that extension runs and cannot raise, and when no other
   * block raises, the scan holds a row of that extension's type.
   */
  lemma NamedFileListed(src: string, dst: string, uri: string, e: Extension, q: nat)
    requires e in Extensions
    requires 0 < q < |uri| && OccursAt(uri, "." + e.suffix, q) && InClass(uri[q - 1], Word)
    ensures e in Matching(uri, Extensions)
    ensures FindName(uri, e.suffix).Some?
    ensures ScanFrom(src, dst, uri, Extensions).ok ==>
      exists i :: 0 <= i < |ScanFrom(src, dst, uri, Extensions).rows| && ScanFrom(src, dst, uri, Extensions).rows[i].kind == e.kind
  {
    ContainsIff(uri, "." + e.suffix);
    MatchingHas(uri, Extensions, e);
    NameFoundAfterWordChar(uri, e.suffix, q);
    var r, m := ScanFrom(src, dst, uri, Extensions), Matching(uri, Extensions);
    ScanFromMatches(src, dst, uri, Extensions);
    if r.ok {
      var i :| 0 <= i < |m| && m[i] == e;
      assert RowFor(r.rows[i], src, dst, uri, m[i]);
    }
  }

  /** The image collector. */
  class ImageTable {
    var rows: seq<ImageRow>
    var uris: seq<string>
    var gifCount: nat
    var jpgCount: nat
    var pngCount: nat

    ghost predicate Valid()
      reads this
    {
      Tallied(rows, uris, gifCount, jpgCount, pngCount)
    }

    constructor ()
      ensures Valid() && rows == [] && uris == []
    {
      rows, uris := [], [];
      gifCount, jpgCount, pngCount := 0, 0, 0;
    }

    /** One of the four `if '.ext' in uri` blocks. */
    method CheckExtension(src: string, dst: string, uri: string, e: Extension) returns (ok: bool)
      requires Valid()
      modifies this
      ensures Valid()
      ensures ok == Own(src, dst, uri, e).ok
      ensures rows == old(rows) + Own(src, dst, uri, e).rows
      ensures uris == old(uris) + Own(src, dst, uri, e).uris
    {
      if Contains(uri, "." + e.suffix) {
        var found := FindName(uri, e.suffix);
        if found.None? {
          return false;
        }
        var row := ImageRow(src, dst, e.kind, found.value, Link(uri));
        TalliedAppend(rows, uris, gifCount, jpgCount, pngCount, row, uri);
        rows := rows + [row];
        uris := uris + [uri];
        match e.kind
        case Gif => gifCount := gifCount + 1;
        case Jpg => jpgCount := jpgCount + 1;
        case Png => pngCount := pngCount + 1;
      }
      return true;
    }

    /** The extension blocks for `exts`, in order; the first failure ends the scan. */
    method CheckUri(src: string, dst: string, uri: string, exts: seq<Extension>) returns (ok: bool)
      requires Valid()
      modifies this
      ensures Valid()
      ensures ok == ScanFrom(src, dst, uri, exts).ok
      ensures rows == old(rows) + ScanFrom(src, dst, uri, exts).rows
      ensures uris == old(uris) + ScanFrom(src, dst, uri, exts).uris
      decreases |exts|
    {
      if exts == [] {
        return true;
      }
      ghost var a, rest := Own(src, dst, uri, exts[0]), ScanFrom(src, dst, uri, exts[1..]);
      assert ScanFrom(src, dst, uri, exts) == Then(a, rest);
      ok := CheckExtension(src, dst, uri, exts[0]);
      if ok {
        ok := CheckUri(src, dst, uri, exts[1..]);
        Associative(old(rows), a.rows, rest.rows);
        Associative(old(uris), a.uris, rest.uris);
      }
    }

    /** Examines one packet for image requests. */
    method CheckPacket(p: Packet) returns (ok: bool)
      requires Valid()
      modifies this
      ensures Valid()
      ensures ok == Outcome(p).ok
      ensures rows == old(rows) + Outcome(p).rows
      ensures uris == old(uris) + Outcome(p).uris
    {
      if p.proto == TCP {
        if p.segment.None? {
          return false;
        }
        var http := p.segment.value.http;
        if http.Some? && http.value.verb == "GET" {
          if http.value.host.None? {
            return false;
          }
          var uri := RequestUri(http.value.host.value, http.value.uri);
          ok := CheckUri(p.src, p.dst, uri, Extensions);
          return;
        }
      }
      return true;
    }
  }
}
