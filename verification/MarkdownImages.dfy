/**
 The Markdown image scanner of src/uploads/uploads.service.ts: all matches of the pattern
 image-open, lazy alt text without line breaks, `](https://`, a run without blanks or `)`, and `)`.
 */
module MarkdownImages {
  import opened Options

  const OPENING := "!["
  const SCHEME := "https://"
  const MIDDLE := "](" + SCHEME

  /** What `.` does not match. */
  predicate LineBreak(c: char) {
    c == '\n' || c == '\r' || c as int == 0x2028 || c as int == 0x2029
  }

  /** What `\s` matches. */
  predicate Blank(c: char) {
    var n := c as int;
    || 0x09 <= n <= 0x0D || n == 0x20 || n == 0xA0 || n == 0x1680 || 0x2000 <= n <= 0x200A
    || n == 0x2028 || n == 0x2029 || n == 0x202F || n == 0x205F || n == 0x3000 || n == 0xFEFF
  }

  predicate UrlChar(c: char) {
    !Blank(c) && c != ')'
  }

  datatype Image = Image(alt: string, run: string) {
    predicate Valid() {
      && (forall i :: 0 <= i < |alt| ==> !LineBreak(alt[i]))
      && |run| > 0 && (forall i :: 0 <= i < |run| ==> UrlChar(run[i]))
    }

    function Body(): string {
      alt + (MIDDLE + (run + ")"))
    }

    function Text(): string {
      OPENING + Body()
    }

    function Url(): string {
      SCHEME + run
    }
  }

  /** The code points ECMAScript counts as white space or line terminators. */
  ghost const WHITE_SPACE: set<int> :=
    {9, 10, 11, 12, 13, 32, 160, 5760, 8192, 8193, 8194, 8195, 8196, 8197, 8198, 8199, 8200, 8201, 8202,
     8232, 8233, 8239, 8287, 12288, 65279}

  lemma CharactersSpeltOut(c: char)
    ensures LineBreak(c) <==> c == '\n' || c == '\r' || c as int == 8232 || c as int == 8233
    ensures UrlChar(c) <==> c != ')' && c as int !in WHITE_SPACE
  {
  }

  /** What an image is, spelt out. */
  lemma ImageSpeltOut(image: Image)
    ensures image.Text() == "![" + image.alt + "](" + "https://" + image.run + ")"
    ensures image.Url() == "https://" + image.run
    ensures image.Valid() <==>
              && (forall c :: c in image.alt ==> c != '\n' && c != '\r' && c as int != 8232 && c as int != 8233)
              && image.run != "" && forall c :: c in image.run ==> c != ')' && c as int !in WHITE_SPACE
  {
    forall c: char {
      CharactersSpeltOut(c);
    }
    assert (forall i :: 0 <= i < |image.alt| ==> !LineBreak(image.alt[i]))
           <==> forall c :: c in image.alt ==> !LineBreak(c);
    assert (forall i :: 0 <= i < |image.run| ==> UrlChar(image.run[i]))
           <==> forall c :: c in image.run ==> UrlChar(c);
  }

  // ---------- The pattern as a relation ----------

  /** The pattern can match at the start of `s`, with the groups of `image`. */
  ghost predicate MatchesAt(s: string, image: Image) {
    image.Valid() && image.Text() <= s
  }

  /** The match a lazy quantifier takes: the one with the shortest alt text. */
  ghost predicate LazyMatchAt(s: string, image: Image) {
    MatchesAt(s, image) && forall other :: MatchesAt(s, other) ==> |image.alt| <= |other.alt|
  }

  ghost predicate NoMatchAt(s: string) {
    forall image :: !MatchesAt(s, image)
  }

  // ---------- The scanner ----------

  function RunLength(s: string): (n: nat)
    ensures n <= |s| && (forall i :: 0 <= i < n ==> UrlChar(s[i])) && (n < |s| ==> !UrlChar(s[n]))
  {
    if s != "" && UrlChar(s[0]) then 1 + RunLength(s[1..]) else 0
  }

  /** The run of `](https://run)` at the start of `s`. */
  function TargetAt(s: string): (run: Option<string>)
  {
    if !(MIDDLE <= s) then None
    else
      var after := s[|MIDDLE|..];
      var n := RunLength(after);
      if 0 < n < |after| && after[n] == ')' then Some(after[..n]) else None
  }

  lemma TargetIsDetermined(s: string, run: string)
    ensures TargetAt(s) == Some(run) <==> Image("", run).Valid() && MIDDLE + (run + ")") <= s
  {
    if Image("", run).Valid() && MIDDLE + (run + ")") <= s {
      var after := s[|MIDDLE|..];
      assert run + ")" <= after;
      assert !UrlChar(after[|run|]) && forall i :: 0 <= i < |run| ==> after[i] == run[i] && UrlChar(after[i]);
      assert RunLength(after) == |run|;
      assert after[..|run|] == run;
    }
  }

  /** Alt text grown one character at a time until the target follows. */
  function BodyAt(s: string): Option<Image> {
    var run := TargetAt(s);
    if run.Some? then Some(Image("", run.value))
    else if s == "" || LineBreak(s[0]) then None
    else
      match BodyAt(s[1..])
      case None => None
      case Some(image) => Some(Image([s[0]] + image.alt, image.run))
  }

  function ImageAt(s: string): Option<Image> {
    if OPENING <= s then BodyAt(s[|OPENING|..]) else None
  }

  lemma PeelAlt(s: string, image: Image)
    requires image.alt != ""
    ensures image.Body() <= s <==> s != "" && s[0] == image.alt[0] && Image(image.alt[1..], image.run).Body() <= s[1..]
  {
    var inner := Image(image.alt[1..], image.run).Body();
    assert image.Body() == [image.alt[0]] + inner;
  }

  /** The scanner finds a body exactly when the pattern has one, and then the shortest. */
  lemma {:induction false} BodyAtIsLazy(s: string, other: Image)
    ensures BodyAt(s).Some? ==> BodyAt(s).value.Valid() && BodyAt(s).value.Body() <= s
    ensures other.Valid() && other.Body() <= s ==> BodyAt(s).Some? && |BodyAt(s).value.alt| <= |other.alt|
    decreases |s|, 1
  {
    TargetIsDetermined(s, other.run);
    if TargetAt(s).Some? {
      TargetIsDetermined(s, TargetAt(s).value);
      assert BodyAt(s).value.Body() == MIDDLE + (TargetAt(s).value + ")");
    } else if other.alt == "" {
      assert other.Body() == MIDDLE + (other.run + ")");
      if s != "" && !LineBreak(s[0]) {
        BodyAtIsLazyInside(s, other);
      }
    } else {
      PeelAlt(s, other);
      if s != "" && !LineBreak(s[0]) {
        BodyAtIsLazyInside(s, Image(other.alt[1..], other.run));
      }
    }
  }

  lemma {:induction false} BodyAtIsLazyInside(s: string, inner: Image)
    requires s != "" && !LineBreak(s[0]) && TargetAt(s).None?
    ensures BodyAt(s).Some? ==> BodyAt(s).value.Valid() && BodyAt(s).value.Body() <= s
    ensures inner.Valid() && inner.Body() <= s[1..] ==> BodyAt(s).Some? && |BodyAt(s).value.alt| <= |inner.alt| + 1
    decreases |s|, 0
  {
    BodyAtIsLazy(s[1..], inner);
    if BodyAt(s).Some? {
      var image := BodyAt(s).value;
      assert image.alt[1..] == BodyAt(s[1..]).value.alt;
      PeelAlt(s, image);
    }
  }

  lemma ImageAtIsLazy(s: string)
    ensures ImageAt(s).None? ==> NoMatchAt(s)
    ensures ImageAt(s).Some? ==> LazyMatchAt(s, ImageAt(s).value)
  {
    forall other | MatchesAt(s, other)
      ensures ImageAt(s).Some? && |ImageAt(s).value.alt| <= |other.alt|
    {
      assert OPENING <= s;
      assert other.Body() <= s[|OPENING|..];
      BodyAtIsLazy(s[|OPENING|..], other);
    }
    if OPENING <= s {
      BodyAtIsLazy(s[|OPENING|..], Image("", ""));
      assert s == OPENING + s[|OPENING|..];
    }
  }

  /** All matches from left to right, each search resuming where the last match ended. */
  function Scan(s: string): seq<Image>
    decreases |s|
  {
    if s == "" then []
    else
      match ImageAt(s)
      case None => Scan(s[1..])
      case Some(image) => ImageAtIsLazy(s); [image] + Scan(s[|image.Text()|..])
  }

  /** Two matches with equally long alt texts are the same match. */
  lemma LazyMatchIsUnique(s: string, a: Image, b: Image)
    requires MatchesAt(s, a) && MatchesAt(s, b) && |a.alt| == |b.alt|
    ensures a == b
  {
    var n := |OPENING| + |a.alt|;
    assert a.alt == s[|OPENING|..n] == b.alt;
    assert MIDDLE + (a.run + ")") <= s[n..] && MIDDLE + (b.run + ")") <= s[n..];
    TargetIsDetermined(s[n..], a.run);
    TargetIsDetermined(s[n..], b.run);
  }

  // ---------- All matches ----------

  /** A match together with the text since the previous one. */
  datatype Chunk = Chunk(gap: string, image: Image)

  function Render(chunks: seq<Chunk>, tail: string): string {
    if chunks == [] then tail else chunks[0].gap + (chunks[0].image.Text() + Render(chunks[1..], tail))
  }

  function Images(chunks: seq<Chunk>): seq<Image> {
    if chunks == [] then [] else [chunks[0].image] + Images(chunks[1..])
  }

  /** `chunks` is what `matchAll` yields on the rendered text: leftmost, lazy, and without overlap. */
  ghost predicate IsMatchAll(chunks: seq<Chunk>, tail: string) {
    var s := Render(chunks, tail);
    if chunks == [] then
      forall i :: 0 <= i <= |s| ==> NoMatchAt(s[i..])
    else
      && (forall i :: 0 <= i < |chunks[0].gap| ==> NoMatchAt(s[i..]))
      && LazyMatchAt(s[|chunks[0].gap|..], chunks[0].image)
      && IsMatchAll(chunks[1..], tail)
  }

  lemma {:induction false} ScanSkips(s: string, n: nat)
    requires n <= |s| && forall i :: 0 <= i < n ==> NoMatchAt(s[i..])
    ensures Scan(s) == Scan(s[n..])
    decreases |s|
  {
    if n == 0 {
      assert s[0..] == s;
    } else {
      assert s[0..] == s;
      ImageAtIsLazy(s);
      forall i | 0 <= i < n - 1 ensures NoMatchAt(s[1..][i..]) {
        assert s[1..][i..] == s[i + 1..];
      }
      ScanSkips(s[1..], n - 1);
      assert s[1..][n - 1..] == s[n..];
    }
  }

  lemma ScanTakes(image: Image, rest: string)
    requires LazyMatchAt(image.Text() + rest, image)
    ensures Scan(image.Text() + rest) == [image] + Scan(rest)
  {
    var s := image.Text() + rest;
    ImageAtIsLazy(s);
    var found := ImageAt(s).value;
    assert |found.alt| <= |image.alt| && |image.alt| <= |found.alt|;
    LazyMatchIsUnique(s, found, image);
    assert s[|image.Text()|..] == rest;
  }

  /** The scanner returns what `matchAll` does, on every text. */
  lemma {:induction false} ScanIsMatchAll(chunks: seq<Chunk>, tail: string)
    requires IsMatchAll(chunks, tail)
    ensures Scan(Render(chunks, tail)) == Images(chunks)
  {
    var s := Render(chunks, tail);
    if chunks == [] {
      ScanSkips(s, |s|);
    } else {
      var gap, image, rest := chunks[0].gap, chunks[0].image, Render(chunks[1..], tail);
      ScanSkips(s, |gap|);
      assert s[|gap|..] == image.Text() + rest;
      ScanTakes(image, rest);
      ScanIsMatchAll(chunks[1..], tail);
    }
  }

  /** Every text has such a list of matches. */
  lemma {:induction false} MatchAllExists(s: string) returns (chunks: seq<Chunk>, tail: string)
    ensures Render(chunks, tail) == s && IsMatchAll(chunks, tail)
    decreases |s|
  {
    ImageAtIsLazy(s);
    assert s[0..] == s;
    if s == "" {
      chunks, tail := [], "";
    } else if ImageAt(s).Some? {
      var image := ImageAt(s).value;
      var rest := s[|image.Text()|..];
      chunks, tail := MatchAllExists(rest);
      chunks := [Chunk("", image)] + chunks;
      assert Render(chunks, tail) == "" + (image.Text() + rest) == s;
    } else {
      chunks, tail := MatchAllExists(s[1..]);
      if chunks == [] {
        tail := s;
        forall i | 0 <= i <= |s| ensures NoMatchAt(s[i..]) {
          if i > 0 { assert s[i..] == s[1..][i - 1..]; }
        }
      } else {
        assert [s[0]] + s[1..] == s;
        chunks := WidenFirst(s[0], chunks, tail);
      }
    }
  }

  /** One more character without a match in front of the first gap. */
  lemma WidenFirst(c: char, chunks: seq<Chunk>, tail: string) returns (wider: seq<Chunk>)
    requires chunks != [] && IsMatchAll(chunks, tail) && NoMatchAt([c] + Render(chunks, tail))
    ensures wider != [] && Render(wider, tail) == [c] + Render(chunks, tail) && IsMatchAll(wider, tail)
  {
    var first, t := chunks[0], Render(chunks, tail);
    var gap := [c] + first.gap;
    wider := [Chunk(gap, first.image)] + chunks[1..];
    var s := [c] + t;
    assert Render(wider, tail) == s;
    assert s[0..] == s;
    forall i | 0 <= i < |gap| ensures NoMatchAt(s[i..]) {
      if i > 0 {
        assert s[i..] == t[i - 1..];
      }
    }
    assert s[|gap|..] == t[|first.gap|..];
  }

  // ---------- Keys ----------

  function ExtractBucketKeyFromUrl(publicUrlPrefix: string, url: Option<string>): Option<string> {
    if url.Some? && publicUrlPrefix <= url.value then Some(url.value[|publicUrlPrefix|..]) else None
  }

  /** A key is what follows the prefix, the whole of it; a URL elsewhere, or no URL, has none. */
  lemma KeyExactlyWhen(publicUrlPrefix: string, url: Option<string>, key: string)
    ensures ExtractBucketKeyFromUrl(publicUrlPrefix, url) == Some(key) <==> url == Some(publicUrlPrefix + key)
  {
    if url.Some? && publicUrlPrefix <= url.value {
      assert url.value == publicUrlPrefix + url.value[|publicUrlPrefix|..];
    }
  }

  /** The keys of the images hosted under the prefix, in order and with repeats. */
  function HostedKeys(publicUrlPrefix: string, images: seq<Image>): seq<string> {
    if images == [] then []
    else
      var key := ExtractBucketKeyFromUrl(publicUrlPrefix, Some(images[0].Url()));
      (if key.Some? then [key.value] else []) + HostedKeys(publicUrlPrefix, images[1..])
  }

  function ExtractBucketKeysFromContent(publicUrlPrefix: string, content: string): seq<string> {
    HostedKeys(publicUrlPrefix, Scan(content))
  }

  // ---------- Rendering and reading back ----------

  predicate FreeOfOpening(s: string) {
    forall i :: 0 <= i < |s| - 1 ==> !(s[i] == '!' && s[i + 1] == '[')
  }

  predicate Plain(chunk: Chunk) {
    FreeOfOpening(chunk.gap) && chunk.image.Valid() && ']' !in chunk.image.alt
  }

  lemma MatchesOpen(s: string, image: Image)
    ensures MatchesAt(s, image) ==> |s| >= 2 && s[0] == '!' && s[1] == '['
  {
    assert image.Text()[0] == '!' && image.Text()[1] == '[';
  }

  lemma NoOpeningNoMatch(s: string)
    requires |s| < 2 || s[0] != '!' || s[1] != '['
    ensures NoMatchAt(s)
  {
    forall image ensures !MatchesAt(s, image) {
      MatchesOpen(s, image);
    }
  }

  lemma PlainAltIsShortest(image: Image, rest: string)
    requires image.Valid() && ']' !in image.alt
    ensures LazyMatchAt(image.Text() + rest, image)
  {
    var s := image.Text() + rest;
    assert forall k :: 0 <= k < |image.alt| ==> s[|OPENING| + k] == image.alt[k] != ']';
    forall other | MatchesAt(s, other) ensures |image.alt| <= |other.alt| {
      assert other.Text()[|OPENING| + |other.alt|] == ']';
    }
  }

  lemma {:induction false} PlainIsMatchAll(chunks: seq<Chunk>, tail: string)
    requires FreeOfOpening(tail) && forall i :: 0 <= i < |chunks| ==> Plain(chunks[i])
    ensures IsMatchAll(chunks, tail)
  {
    var s := Render(chunks, tail);
    if chunks == [] {
      forall i | 0 <= i <= |s| ensures NoMatchAt(s[i..]) {
        NoOpeningNoMatch(s[i..]);
      }
    } else {
      var gap, image, rest := chunks[0].gap, chunks[0].image, Render(chunks[1..], tail);
      assert Plain(chunks[0]);
      forall i | 0 <= i < |gap| ensures NoMatchAt(s[i..]) {
        assert s[i] == gap[i] && s[i + 1] == (if i + 1 < |gap| then gap[i + 1] else '!');
        NoOpeningNoMatch(s[i..]);
      }
      assert s[|gap|..] == image.Text() + rest;
      PlainAltIsShortest(image, rest);
      forall i | 0 <= i < |chunks[1..]| ensures Plain(chunks[1..][i]) {
        assert chunks[1..][i] == chunks[i + 1];
      }
      PlainIsMatchAll(chunks[1..], tail);
    }
  }

  /** The URLs under the prefix, in order and with repeats. */
  ghost function UrlsUnder(publicUrlPrefix: string, images: seq<Image>): seq<string> {
    if images == [] then []
    else
      (if publicUrlPrefix <= "https://" + images[0].run then ["https://" + images[0].run] else [])
      + UrlsUnder(publicUrlPrefix, images[1..])
  }

  /** `keys`, each put behind the prefix, are the given URLs one by one. */
  ghost predicate KeysOfUrls(publicUrlPrefix: string, keys: seq<string>, urls: seq<string>) {
    |keys| == |urls| && forall j :: 0 <= j < |keys| ==> publicUrlPrefix + keys[j] == urls[j]
  }

  lemma {:induction false} HostedKeysAreOfUrls(publicUrlPrefix: string, images: seq<Image>)
    ensures KeysOfUrls(publicUrlPrefix, HostedKeys(publicUrlPrefix, images), UrlsUnder(publicUrlPrefix, images))
  {
    if images != [] {
      HostedKeysAreOfUrls(publicUrlPrefix, images[1..]);
      var url := images[0].Url();
      var key := ExtractBucketKeyFromUrl(publicUrlPrefix, Some(url));
      if key.Some? {
        KeyExactlyWhen(publicUrlPrefix, Some(url), key.value);
      } else if publicUrlPrefix <= url {
        KeyExactlyWhen(publicUrlPrefix, Some(url), url[|publicUrlPrefix|..]);
      }
    }
  }

  /**
   Text and images rendered in turn read back as the URLs under the prefix, in order and with repeats: put behind
   the prefix, the keys are exactly those.
   */
  lemma RoundTrip(publicUrlPrefix: string, chunks: seq<Chunk>, tail: string)
    requires FreeOfOpening(tail) && forall i :: 0 <= i < |chunks| ==> Plain(chunks[i])
    ensures KeysOfUrls(publicUrlPrefix, ExtractBucketKeysFromContent(publicUrlPrefix, Render(chunks, tail)),
                       UrlsUnder(publicUrlPrefix, Images(chunks)))
  {
    PlainIsMatchAll(chunks, tail);
    ScanIsMatchAll(chunks, tail);
    HostedKeysAreOfUrls(publicUrlPrefix, Images(chunks));
  }
}
