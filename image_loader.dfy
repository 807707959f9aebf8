/**
 * The image loader: external URLs are kept, local paths are rewritten to the
 * CDN's resizing endpoint with a `width=W&quality=Q&format=auto` option string.
 * The option string is what `URLSearchParams.prototype.toString` produces, the
 * application/x-www-form-urlencoded serializer of section 5.2 of the WHATWG
 * URL Standard.
 */
module ImageLoader {
  import opened Wrappers
  import opened Strings

  /** The quality used when the caller gives none. */
  const DefaultQuality: nat := 75

  const Prefix: string := "/cdn-cgi/image/"

  // ---------------------------------------------------------------------------
  // application/x-www-form-urlencoded serializing (WHATWG URL Standard, section 5.2)

  /** Code points left as they are: ASCII alphanumerics and `*`, `-`, `.`, `_`;
      every other one is in the application/x-www-form-urlencoded percent-encode set. */
  predicate IsUnreserved(c: char) {
    ('a' <= c <= 'z') || ('A' <= c <= 'Z') || ('0' <= c <= '9') || c == '*' || c == '-' || c == '.' || c == '_'
  }

  /** An upper-case hexadecimal digit. */
  function HexDigit(d: nat): (c: char)
    requires d < 16
    ensures ('0' <= c <= '9') || ('A' <= c <= 'F')
  {
    if d < 10 then ('0' as int + d) as char else ('A' as int + d - 10) as char
  }

  /** `%XY` for one byte. */
  function PercentByte(b: nat): (s: string)
    requires b < 256
    ensures |s| == 3 && s[0] == '%'
  {
    ['%', HexDigit(b / 16), HexDigit(b % 16)]
  }

  /** The UTF-8 encoding of one code point (section 3 of RFC 3629). */
  function Utf8(c: char): (bytes: seq<nat>)
    ensures 1 <= |bytes| <= 4
    ensures forall k | 0 <= k < |bytes| :: bytes[k] < 256
    ensures (c as int < 0x80) <==> |bytes| == 1
  {
    var n := c as int;
    if n < 0x80 then [n]
    else if n < 0x800 then [0xC0 + n / 0x40, 0x80 + n % 0x40]
    else if n < 0x10000 then [0xE0 + n / 0x1000, 0x80 + (n / 0x40) % 0x40, 0x80 + n % 0x40]
    else [0xF0 + n / 0x40000, 0x80 + (n / 0x1000) % 0x40, 0x80 + (n / 0x40) % 0x40, 0x80 + n % 0x40]
  }

  function PercentBytes(bytes: seq<nat>): (s: string)
    requires forall k | 0 <= k < |bytes| :: bytes[k] < 256
    ensures |s| == 3 * |bytes|
    ensures forall k | 0 <= k < |s| :: s[k] == '%' || ('0' <= s[k] <= '9') || ('A' <= s[k] <= 'F')
  {
    if bytes == [] then [] else PercentByte(bytes[0]) + PercentBytes(bytes[1..])
  }

  /** One code point, percent-encoded with space as plus. */
  function EncodeChar(c: char): (s: string)
    ensures s != []
  {
    if IsUnreserved(c) then [c]
    else if c == ' ' then "+"
    else PercentBytes(Utf8(c))
  }

  /** The percent-encode-after-encoding of a name or a value (UTF-8, space as plus). */
  function Encode(s: string): (r: string)
    ensures |r| >= |s|
  {
    if s == [] then [] else EncodeChar(s[0]) + Encode(s[1..])
  }

  /** One pair as `name=value`. */
  function PairText(pair: (string, string)): string {
    Encode(pair.0) + "=" + Encode(pair.1)
  }

  function PairTexts(pairs: seq<(string, string)>): (texts: seq<string>)
    ensures |texts| == |pairs|
    ensures forall k | 0 <= k < |pairs| :: texts[k] == PairText(pairs[k])
  {
    if pairs == [] then [] else [PairText(pairs[0])] + PairTexts(pairs[1..])
  }

  /** The serialization: the `name=value` texts joined by `&`. */
  function Serialize(pairs: seq<(string, string)>): string {
    if pairs == [] then "" else JoinWith(PairTexts(pairs), '&')
  }

  /** Text of unreserved characters is serialized as it is. */
  lemma {:induction false} EncodeUnreserved(s: string)
    requires forall k | 0 <= k < |s| :: IsUnreserved(s[k])
    ensures Encode(s) == s
    decreases |s|
  {
    if s != [] {
      EncodeUnreserved(s[1..]);
      assert s == [s[0]] + s[1..];
    }
  }

  /** An encoded name or value never contains the separators `&` and `=`, so the
      serialized pairs can be told apart. */
  lemma {:induction false} EncodeHasNoSeparators(s: string)
    ensures '&' !in Encode(s) && '=' !in Encode(s)
    decreases |s|
  {
    if s != [] {
      EncodeHasNoSeparators(s[1..]);
      var head := EncodeChar(s[0]);
      assert '&' !in head && '=' !in head by {
        if !IsUnreserved(s[0]) && s[0] != ' ' {
          var p := PercentBytes(Utf8(s[0]));
          forall k | 0 <= k < |p| ensures p[k] != '&' && p[k] != '=' {
          }
        }
      }
    }
  }

  /** Splitting the serialization at `&` gives back one `name=value` text per pair. */
  lemma SerializeSplit(pairs: seq<(string, string)>)
    requires pairs != []
    ensures Split(Serialize(pairs), '&') == PairTexts(pairs)
  {
    var texts := PairTexts(pairs);
    forall k | 0 <= k < |texts| ensures '&' !in texts[k] {
      EncodeHasNoSeparators(pairs[k].0);
      EncodeHasNoSeparators(pairs[k].1);
    }
    JoinSplit(texts, '&');
  }

  /** An option name or value made of letters is serialized as it is. */
  lemma EncodeWidth() ensures Encode("width") == "width" { EncodeUnreserved("width"); }
  lemma EncodeQuality() ensures Encode("quality") == "quality" { EncodeUnreserved("quality"); }
  lemma EncodeFormat() ensures Encode("format") == "format" { EncodeUnreserved("format"); }
  lemma EncodeAuto() ensures Encode("auto") == "auto" { EncodeUnreserved("auto"); }

  // ---------------------------------------------------------------------------
  // The loader

  predicate IsExternal(src: string) {
    StartsWith(src, "http://") || StartsWith(src, "https://")
  }

  /** The source without one leading slash. */
  function CleanSrc(src: string): (r: string)
    ensures StartsWith(src, "/") ==> "/" + r == src
    ensures !StartsWith(src, "/") ==> r == src
  {
    if StartsWith(src, "/") then src[1..] else src
  }

  /** The option string for a width and a quality. */
  function Options(width: nat, quality: nat): string {
    Serialize([("width", NatToString(width)), ("quality", NatToString(quality)), ("format", "auto")])
  }

  /** `cloudflareImageLoader({src, width, quality})`; `None` is an omitted quality. */
  function ImageUrl(src: string, width: nat, quality: Option<nat>): (url: string)
    ensures IsExternal(src) ==> url == src
    ensures !IsExternal(src) ==> StartsWith(url, Prefix) && EndsWith(url, "/" + CleanSrc(src))
  {
    if IsExternal(src) then src
    else
      var url := Prefix + Options(width, quality.GetOr(DefaultQuality)) + ("/" + CleanSrc(src));
      ConcatEnds(Prefix, Options(width, quality.GetOr(DefaultQuality)), "/" + CleanSrc(src));
      url
  }

  /** A concatenation starts with its first part and ends with its last. */
  lemma ConcatEnds(a: string, b: string, c: string)
    ensures StartsWith(a + b + c, a) && EndsWith(a + b + c, c)
  {
    assert (a + b + c)[..|a|] == a;
    assert (a + b + c)[|a + b|..] == c;
  }

  /** The options always read `width=W&quality=Q&format=auto`, in that order,
      with both numbers in decimal. */
  lemma OptionsShape(width: nat, quality: nat)
    ensures Options(width, quality) == "width=" + NatToString(width) + "&quality=" + NatToString(quality) + "&format=auto"
  {
    var w := NatToString(width);
    var q := NatToString(quality);
    SerializeThree(("width", w), ("quality", q), ("format", "auto"));
    WidthPair(w);
    QualityPair(q);
    FormatPair();
    JoinOptions(PairText(("width", w)), PairText(("quality", q)), PairText(("format", "auto")), w, q);
  }

  lemma WidthPair(w: string)
    requires forall k | 0 <= k < |w| :: '0' <= w[k] <= '9'
    ensures PairText(("width", w)) == "width=" + w
  {
    EncodeUnreserved(w);
    EncodeWidth();
  }

  lemma QualityPair(q: string)
    requires forall k | 0 <= k < |q| :: '0' <= q[k] <= '9'
    ensures PairText(("quality", q)) == "quality=" + q
  {
    EncodeUnreserved(q);
    EncodeQuality();
  }

  lemma FormatPair()
    ensures PairText(("format", "auto")) == "format=auto"
  {
    EncodeFormat();
    EncodeAuto();
  }

  lemma JoinOptions(a: string, b: string, c: string, w: string, q: string)
    requires a == "width=" + w && b == "quality=" + q && c == "format=auto"
    ensures a + "&" + b + "&" + c == "width=" + w + "&quality=" + q + "&format=auto"
  {
  }

  lemma SerializeThree(x: (string, string), y: (string, string), z: (string, string))
    ensures Serialize([x, y, z]) == PairText(x) + "&" + PairText(y) + "&" + PairText(z)
  {
    var texts := PairTexts([x, y, z]);
    assert texts[1..][1..] == [texts[2]];
    assert JoinWith(texts[1..], '&') == texts[1] + "&" + texts[2];
    assert JoinWith(texts, '&') == texts[0] + "&" + (texts[1] + "&" + texts[2]);
  }

  /** A local source becomes the prefix, the options, a slash and the cleaned source. */
  lemma LocalUrl(src: string, width: nat, quality: Option<nat>)
    requires !IsExternal(src)
    ensures ImageUrl(src, width, quality)
         == "/cdn-cgi/image/width=" + NatToString(width) + "&quality=" + NatToString(quality.GetOr(75))
            + "&format=auto/" + CleanSrc(src)
  {
    var w, q := NatToString(width), NatToString(quality.GetOr(DefaultQuality));
    var options := Options(width, quality.GetOr(DefaultQuality));
    assert ImageUrl(src, width, quality) == Prefix + options + ("/" + CleanSrc(src));
    OptionsShape(width, quality.GetOr(DefaultQuality));
    UrlText(options, w, q, CleanSrc(src));
  }

  lemma UrlText(options: string, w: string, q: string, clean: string)
    requires options == "width=" + w + "&quality=" + q + "&format=auto"
    ensures Prefix + options + ("/" + clean) == "/cdn-cgi/image/width=" + w + "&quality=" + q + "&format=auto/" + clean
  {
  }

  /** Omitting the quality is asking for 75. */
  lemma DefaultQualityIs75(src: string, width: nat)
    ensures ImageUrl(src, width, None) == ImageUrl(src, width, Some(75))
  {
  }

  /** Exactly one leading slash is removed: `/a.png` is served like `a.png`,
      and `//a.png` keeps one slash. */
  lemma OneSlashRemoved(src: string, width: nat, quality: Option<nat>)
    requires !IsExternal(src)
    ensures ImageUrl("/" + src, width, quality) == ImageUrl(src, width, quality) || StartsWith(src, "/")
    ensures CleanSrc("/" + src) == src
  {
    var s := "/" + src;
    assert StartsWith(s, "/");
    assert !IsExternal(s) by {
      assert s[0] == '/';
      assert !StartsWith(s, "http://") by { assert |s| < 7 || s[..7][0] == '/'; }
      assert !StartsWith(s, "https://") by { assert |s| < 8 || s[..8][0] == '/'; }
    }
    assert s[1..] == src;
  }

  /** The worked example: `/images/a.png` at width 640. */
  lemma ImageUrlExample(src: string)
    requires src == "/images/a.png"
    ensures ImageUrl(src, 640, None) == "/cdn-cgi/image/width=640&quality=75&format=auto/images/a.png"
  {
    ExampleSource(src);
    LocalUrl(src, 640, None);
    ExampleNumbers();
    ExampleText("640", "75", "images/a.png");
  }

  lemma ExampleSource(src: string)
    requires src == "/images/a.png"
    ensures !IsExternal(src) && CleanSrc(src) == "images/a.png"
  {
    assert !StartsWith(src, "http://") by { assert src[..7][0] == '/'; }
    assert !StartsWith(src, "https://") by { assert src[..8][0] == '/'; }
    assert StartsWith(src, "/") by { assert src[..1] == "/"; }
    assert src[1..] == "images/a.png";
  }

  lemma ExampleText(w: string, q: string, clean: string)
    requires w == "640" && q == "75" && clean == "images/a.png"
    ensures "/cdn-cgi/image/width=" + w + "&quality=" + q + "&format=auto/" + clean
         == "/cdn-cgi/image/width=640&quality=75&format=auto/images/a.png"
  {
    var s1 := "/cdn-cgi/image/width=" + w;
    assert s1 == "/cdn-cgi/image/width=640";
    var s2 := s1 + "&quality=" + q;
    assert s2 == "/cdn-cgi/image/width=640&quality=75";
    var s3 := s2 + "&format=auto/";
    assert s3 == "/cdn-cgi/image/width=640&quality=75&format=auto/";
  }

  lemma ExampleNumbers()
    ensures NatToString(640) == "640" && NatToString(75) == "75"
  {
    assert NatToString(64) == "64";
  }
}
