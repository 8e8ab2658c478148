/** The `Media` component of src/components/Media/Media.js: a path is shown as
    a video, as an image, or as an inline notice, according to its extension,
    matched case-insensitively and anchored at the end of the path. */
module MediaType {

  /** What `Media` renders for a path. The presentation classes and the fixed
      video attributes (controls, autoplay, muted, loop) are not part of it. */
  datatype Rendered =
    | Video(src: string)
    | Image(src: string, alt: string)
    | Unsupported(text: string)

  const VideoExtensions: seq<string> := ["mp4", "webm", "ogg"]
  const ImageExtensions: seq<string> := ["jpeg", "jpg", "png", "gif", "svg"]
  const UnsupportedPrefix: string := "Unsupported media type: "

  /** The case folding the regular-expression flag `i` applies to ASCII
      letters; every extension above is lower-case ASCII. */
  function LowerChar(c: char): (d: char)
    ensures 'A' <= c <= 'Z' ==> 'a' <= d <= 'z' && d as int == c as int + 32
    ensures !('A' <= c <= 'Z') ==> d == c
  {
    if 'A' <= c <= 'Z' then (c as int + 32) as char else c
  }

  function Lower(s: string): (t: string)
    ensures |t| == |s|
  {
    seq(|s|, i requires 0 <= i < |s| => LowerChar(s[i]))
  }

  predicate EndsWith(s: string, suffix: string) {
    |suffix| <= |s| && s[|s| - |suffix|..] == suffix
  }

  /** The test `/\.(e1|e2|...)$/i` as the component runs it: the lower-cased
      path ends with a dot followed by one of the extensions. */
  predicate MatchesAny(src: string, exts: seq<string>) {
    exists j :: 0 <= j < |exts| && EndsWith(Lower(src), "." + exts[j])
  }

  /** Reference reading of the same regular expression: some literal dot in
      `src` is followed by the rest of the path, which equals the extension
      up to letter case. */
  ghost predicate HasExtension(src: string, ext: string) {
    exists k :: 0 <= k < |src| && src[k] == '.' && Lower(src[k + 1..]) == ext
  }

  lemma LowerSuffix(s: string, k: nat)
    requires k <= |s|
    ensures Lower(s)[k..] == Lower(s[k..])
  {
  }

  lemma LowerDot(c: char)
    requires LowerChar(c) == '.'
    ensures c == '.'
  {
  }

  lemma EndsWithSplit(src: string, ext: string)
    requires EndsWith(Lower(src), "." + ext)
    ensures var k := |src| - |ext| - 1; src[k] == '.' && Lower(src[k + 1..]) == ext
  {
    var ls := Lower(src);
    var k := |src| - |ext| - 1;
    var dotted := "." + ext;
    assert ls[k..] == dotted;
    assert ls[k] == dotted[0];
    LowerDot(src[k]);
    LowerSuffix(src, k + 1);
    assert ls[k + 1..] == ls[k..][1..];
  }

  lemma EndsWithGivesExtension(src: string, ext: string)
    requires EndsWith(Lower(src), "." + ext)
    ensures HasExtension(src, ext)
  {
    EndsWithSplit(src, ext);
    var k := |src| - |ext| - 1;
    assert src[k] == '.' && Lower(src[k + 1..]) == ext;
  }

  lemma SplitGivesEndsWith(src: string, ext: string, k: nat)
    requires k < |src| && src[k] == '.' && Lower(src[k + 1..]) == ext
    ensures EndsWith(Lower(src), "." + ext)
  {
    var ls := Lower(src);
    var dotted := "." + ext;
    LowerSuffix(src, k + 1);
    assert ls[k + 1..] == ext;
    assert |dotted| == |ls| - k;
    assert ls[k] == '.';
    assert ls[k..] == dotted by {
      assert ls[k..] == [ls[k]] + ls[k + 1..];
    }
  }

  lemma ExtensionGivesEndsWith(src: string, ext: string)
    requires HasExtension(src, ext)
    ensures EndsWith(Lower(src), "." + ext)
  {
    var k :| 0 <= k < |src| && src[k] == '.' && Lower(src[k + 1..]) == ext;
    SplitGivesEndsWith(src, ext, k);
  }

  /** The suffix test and the reference reading agree for every path. */
  lemma EndsWithIffHasExtension(src: string, ext: string)
    ensures EndsWith(Lower(src), "." + ext) <==> HasExtension(src, ext)
  {
    if EndsWith(Lower(src), "." + ext) {
      EndsWithGivesExtension(src, ext);
    }
    if HasExtension(src, ext) {
      ExtensionGivesEndsWith(src, ext);
    }
  }

  lemma MatchesAnyIffHasExtension(src: string, exts: seq<string>)
    ensures MatchesAny(src, exts) <==> exists j :: 0 <= j < |exts| && HasExtension(src, exts[j])
  {
    forall j | 0 <= j < |exts| {
      EndsWithIffHasExtension(src, exts[j]);
    }
  }

  /** `Media({src, alt})`: video first, then image, otherwise the notice. The
      `alt` text defaults to the empty string. */
  function Media(src: string, alt: string := ""): (r: Rendered)
    ensures r.Video? ==> r.src == src
    ensures r.Image? ==> r.src == src && r.alt == alt
    ensures r.Unsupported? ==> r.text == UnsupportedPrefix + src
  {
    if MatchesAny(src, VideoExtensions) then Video(src)
    else if MatchesAny(src, ImageExtensions) then Image(src, alt)
    else Unsupported(UnsupportedPrefix + src)
  }

  /** What the classification means: a video exactly when some literal dot
      is followed by a video extension up to letter case; an image exactly
      when that fails and the same holds of an image extension; the notice
      otherwise. */
  lemma MediaClassifiesByExtension(src: string, alt: string)
    ensures Media(src, alt).Video? <==>
      exists j :: 0 <= j < |VideoExtensions| && HasExtension(src, VideoExtensions[j])
    ensures Media(src, alt).Image? <==>
      (forall j :: 0 <= j < |VideoExtensions| ==> !HasExtension(src, VideoExtensions[j])) &&
      (exists j :: 0 <= j < |ImageExtensions| && HasExtension(src, ImageExtensions[j]))
    ensures Media(src, alt).Unsupported? <==>
      (forall j :: 0 <= j < |VideoExtensions| ==> !HasExtension(src, VideoExtensions[j])) &&
      (forall j :: 0 <= j < |ImageExtensions| ==> !HasExtension(src, ImageExtensions[j]))
  {
    MatchesAnyIffHasExtension(src, VideoExtensions);
    MatchesAnyIffHasExtension(src, ImageExtensions);
  }

  /** The last two letters of every dotted extension. */
  function LastTwo(s: string): string
    requires |s| >= 2
  {
    s[|s| - 2..]
  }

  lemma SharedSuffixLastTwo(s: string, a: string, b: string)
    requires |a| >= 2 && |b| >= 2
    requires EndsWith(s, a) && EndsWith(s, b)
    ensures LastTwo(a) == LastTwo(b)
  {
    assert LastTwo(a) == s[|s| - 2..];
    assert LastTwo(b) == s[|s| - 2..];
  }

  lemma VideoLastTwo(v: nat)
    requires v < |VideoExtensions|
    ensures var t := LastTwo("." + VideoExtensions[v]); t == "p4" || t == "bm" || t == "gg"
  {
    assert v == 0 || v == 1 || v == 2;
  }

  lemma ImageLastTwo(m: nat)
    requires m < |ImageExtensions|
    ensures var t := LastTwo("." + ImageExtensions[m]);
      t == "eg" || t == "pg" || t == "ng" || t == "if" || t == "vg"
  {
    assert m == 0 || m == 1 || m == 2 || m == 3 || m == 4;
  }

  /** No path has both a video and an image extension, so testing video
      first decides nothing: the image-first order classifies alike. */
  lemma ExtensionSetsDisjoint(src: string)
    ensures !(MatchesAny(src, VideoExtensions) && MatchesAny(src, ImageExtensions))
  {
    var ls := Lower(src);
    if MatchesAny(src, VideoExtensions) && MatchesAny(src, ImageExtensions) {
      var v :| 0 <= v < |VideoExtensions| && EndsWith(ls, "." + VideoExtensions[v]);
      var m :| 0 <= m < |ImageExtensions| && EndsWith(ls, "." + ImageExtensions[m]);
      SharedSuffixLastTwo(ls, "." + VideoExtensions[v], "." + ImageExtensions[m]);
      VideoLastTwo(v);
      ImageLastTwo(m);
      assert false;
    }
  }

  /** Testing video first changes nothing: a video never also matches the
      image pattern, and the image outcome occurs exactly when that pattern
      matches. */
  lemma ExactlyOneOutcome(src: string, alt: string)
    ensures var r := Media(src, alt);
      (r.Video? ==> !MatchesAny(src, ImageExtensions)) &&
      (r.Image? <==> MatchesAny(src, ImageExtensions))
  {
    ExtensionSetsDisjoint(src);
  }

  /** Letter case plays no part: two paths that agree up to case get the same
      kind of outcome. */
  lemma CaseInsensitive(s1: string, s2: string, alt: string)
    requires Lower(s1) == Lower(s2)
    ensures Media(s1, alt).Video? == Media(s2, alt).Video?
    ensures Media(s1, alt).Image? == Media(s2, alt).Image?
    ensures Media(s1, alt).Unsupported? == Media(s2, alt).Unsupported?
  {
  }

  lemma NoVideoByLastTwo(src: string)
    requires |src| >= 2
    requires var t := LastTwo(Lower(src)); t != "p4" && t != "bm" && t != "gg"
    ensures !MatchesAny(src, VideoExtensions)
  {
  }

  lemma NoImageByLastTwo(src: string)
    requires |src| >= 2
    requires var t := LastTwo(Lower(src));
      t != "eg" && t != "pg" && t != "ng" && t != "if" && t != "vg"
    ensures !MatchesAny(src, ImageExtensions)
  {
  }

  /** Every dotted extension is at least four characters long, so a path of
      three characters or fewer is unsupported. */
  lemma UnsupportedWhenShort(src: string, alt: string)
    requires |src| < 4
    ensures Media(src, alt) == Unsupported(UnsupportedPrefix + src)
  {
  }

  lemma VideoExample()
    ensures Media("x.mp4") == Video("x.mp4")
    ensures Media("X.MP4") == Video("X.MP4")
  {
    assert Lower("x.mp4") == "x.mp4";
    assert EndsWith(Lower("x.mp4"), "." + VideoExtensions[0]);
    assert Lower("X.MP4") == "x.mp4";
    assert EndsWith(Lower("X.MP4"), "." + VideoExtensions[0]);
  }

  lemma ImageExample()
    ensures Media("/DungeonGeneration.png", "Dungeon") == Image("/DungeonGeneration.png", "Dungeon")
  {
    var src := "/DungeonGeneration.png";
    assert Lower(src)[|src| - 4..] == ".png";
    assert EndsWith(Lower(src), "." + ImageExtensions[2]);
    ExtensionSetsDisjoint(src);
  }

  /** One mismatching character, counted from the end, rules a suffix out. */
  lemma MismatchFromEnd(s: string, suffix: string, i: nat)
    requires i < |suffix| <= |s|
    requires s[|s| - 1 - i] != suffix[|suffix| - 1 - i]
    ensures !EndsWith(s, suffix)
  {
    assert s[|s| - |suffix|..][|suffix| - 1 - i] == s[|s| - 1 - i];
  }

  lemma LowerOfNoCapitals(s: string)
    requires forall i :: 0 <= i < |s| ==> !('A' <= s[i] <= 'Z')
    ensures Lower(s) == s
  {
  }

  /** With neither pattern matching, the notice is rendered. */
  lemma UnsupportedWhenNoMatch(src: string, alt: string)
    requires !MatchesAny(src, VideoExtensions) && !MatchesAny(src, ImageExtensions)
    ensures Media(src, alt) == Unsupported(UnsupportedPrefix + src)
  {
  }

  lemma NoVideoByMismatch(src: string)
    requires !EndsWith(Lower(src), ".mp4")
    requires !EndsWith(Lower(src), ".webm")
    requires !EndsWith(Lower(src), ".ogg")
    ensures !MatchesAny(src, VideoExtensions)
  {
    assert "." + VideoExtensions[0] == ".mp4";
    assert "." + VideoExtensions[1] == ".webm";
    assert "." + VideoExtensions[2] == ".ogg";
  }

  lemma NoVideoInXmp4()
    ensures !MatchesAny("a.xmp4", VideoExtensions)
  {
    LowerOfNoCapitals("a.xmp4");
    MismatchFromEnd("a.xmp4", ".mp4", 3);
    MismatchFromEnd("a.xmp4", ".webm", 1);
    MismatchFromEnd("a.xmp4", ".ogg", 0);
    NoVideoByMismatch("a.xmp4");
  }

  /** An `mp4` that is not preceded by a dot does not count. */
  lemma DotRequiredExample()
    ensures Media("a.xmp4") == Unsupported("Unsupported media type: a.xmp4")
  {
    NoVideoInXmp4();
    LowerOfNoCapitals("a.xmp4");
    assert LastTwo(Lower("a.xmp4")) == "p4";
    NoImageByLastTwo("a.xmp4");
    UnsupportedWhenNoMatch("a.xmp4", "");
  }

  /** Matching is anchored at the end: an extension followed by more text
      does not count. */
  lemma AnchoredExample()
    ensures Media("a.mp4.txt") == Unsupported("Unsupported media type: a.mp4.txt")
  {
    LowerOfNoCapitals("a.mp4.txt");
    assert LastTwo(Lower("a.mp4.txt")) == "xt";
    NoVideoByLastTwo("a.mp4.txt");
    NoImageByLastTwo("a.mp4.txt");
    UnsupportedWhenNoMatch("a.mp4.txt", "");
  }

  /** A bare extension without its dot does not count. */
  lemma BareExtensionExample()
    ensures Media("mp4") == Unsupported("Unsupported media type: mp4")
  {
    UnsupportedWhenShort("mp4", "");
  }

  /** An unknown extension gives the notice with the path appended, whatever
      the `alt` text. */
  lemma UnknownExtensionExample(alt: string)
    ensures Media("photo.bmp", alt) == Unsupported("Unsupported media type: photo.bmp")
  {
    LowerOfNoCapitals("photo.bmp");
    assert LastTwo(Lower("photo.bmp")) == "mp";
    NoVideoByLastTwo("photo.bmp");
    NoImageByLastTwo("photo.bmp");
    UnsupportedWhenNoMatch("photo.bmp", alt);
  }
}
