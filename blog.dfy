/**
 * The markdown blog loader of `src/utils/blog.ts`.
 *
 * The posts directory is read from a read-only file system given as a value.
 * The front-matter parser, the markdown renderer and the date parser are
 * foreign libraries; they are passed in as functions (`Libraries`). The time
 * of the load, used as the default date, is a parameter too.
 */
module Blog {
  import opened Wrappers
  import opened Strings

  type Path = string

  /** A read-only snapshot of the file system: each directory with its entry
      names in the order the operating system lists them, and each file with its text. */
  datatype FileSystem = FileSystem(dirs: map<Path, seq<string>>, files: map<Path, string>)

  /** `fs.existsSync`: true for files and directories alike. */
  predicate Exists(fs: FileSystem, p: Path) {
    p in fs.dirs || p in fs.files
  }

  /** `path.join(dir, name)` for a normalised directory and a plain file name. */
  function Join(dir: Path, name: string): Path {
    dir + "/" + name
  }

  /** What `gray-matter` returns: the front-matter fields and the markdown body. */
  datatype Matter = Matter(data: map<string, string>, content: string)

  /** The foreign libraries, as total functions; `None` stands for a thrown exception. */
  datatype Libraries = Libraries(
    parseFrontMatter: string -> Option<Matter>,  // gray-matter
    renderMarkdown: string -> Option<string>,    // remark().use(html).process
    timestamp: string -> int)                    // new Date(s).getTime()

  datatype Post = Post(
    slug: string,
    title: string,
    excerpt: string,
    date: string,
    coverImage: string,
    author: string,
    authorImage: string,
    content: string,
    tags: seq<string>)

  // ---------------------------------------------------------------------------
  // File names and slugs

  /** The listing keeps names that end in `.mdx` or `.md`. */
  predicate IsMarkdownName(name: string) {
    EndsWith(name, ".mdx") || EndsWith(name, ".md")
  }

  /** The extension that `/\.mdx?$/` removes from a markdown name. */
  function Extension(name: string): string
    requires IsMarkdownName(name)
  {
    if EndsWith(name, ".mdx") then ".mdx" else ".md"
  }

  /** `name.replace(/\.mdx?$/, '')`. */
  function SlugOf(name: string): (slug: string)
    requires IsMarkdownName(name)
    ensures slug + Extension(name) == name
  {
    var slug := name[..|name| - |Extension(name)|];
    assert slug + Extension(name) == name[..|name| - |Extension(name)|] + name[|name| - |Extension(name)|..];
    slug
  }

  /** `.filter(name is markdown).map(name => slug)`: the slugs of a listing's markdown
      names, in listing order. */
  function MarkdownSlugs(names: seq<string>): (slugs: seq<string>)
    ensures |slugs| <= |names|
    decreases |names|
  {
    if names == [] then []
    else (if IsMarkdownName(names[0]) then [SlugOf(names[0])] else []) + MarkdownSlugs(names[1..])
  }

  // ---------------------------------------------------------------------------
  // Front matter

  /** `data[key] || default`: a missing or empty field falls back to its default. */
  function FieldOr(data: map<string, string>, key: string, default: string): string {
    if key in data && data[key] != "" then data[key] else default
  }

  /** The post record built from a parsed file; `now` is the ISO time of the load. */
  function MakePost(slug: string, data: map<string, string>, html: string, tags: seq<string>, now: string): (p: Post)
    ensures p.slug == slug && p.content == html && p.tags == tags
    ensures p.title != "" && p.coverImage != "" && p.author != "" && p.authorImage != ""
  {
    Post(
      slug := slug,
      title := FieldOr(data, "title", "Untitled"),
      excerpt := FieldOr(data, "excerpt", ""),
      date := FieldOr(data, "date", now),
      coverImage := FieldOr(data, "coverImage", "/images/blog/default.jpg"),
      author := FieldOr(data, "author", "SolarBright Team"),
      authorImage := FieldOr(data, "authorImage", "/images/default-avatar.png"),
      content := html,
      tags := tags)
  }

  /** Each field holds its front-matter value when that is set, and its default otherwise. */
  lemma MakePostFields(slug: string, data: map<string, string>, html: string, tags: seq<string>, now: string)
    ensures var p := MakePost(slug, data, html, tags, now);
      && p.slug == slug && p.content == html && p.tags == tags
      && ("title" in data && data["title"] != "" ==> p.title == data["title"])
      && ("title" !in data || data["title"] == "" ==> p.title == "Untitled")
      && ("excerpt" in data ==> p.excerpt == data["excerpt"])
      && ("excerpt" !in data ==> p.excerpt == "")
      && ("date" in data && data["date"] != "" ==> p.date == data["date"])
      && ("date" !in data || data["date"] == "" ==> p.date == now)
      && ("coverImage" in data && data["coverImage"] != "" ==> p.coverImage == data["coverImage"])
      && ("coverImage" !in data || data["coverImage"] == "" ==> p.coverImage == "/images/blog/default.jpg")
      && ("author" in data && data["author"] != "" ==> p.author == data["author"])
      && ("author" !in data || data["author"] == "" ==> p.author == "SolarBright Team")
      && ("authorImage" in data && data["authorImage"] != "" ==> p.authorImage == data["authorImage"])
      && ("authorImage" !in data || data["authorImage"] == "" ==> p.authorImage == "/images/default-avatar.png")
  {
  }

  // ---------------------------------------------------------------------------
  // Tags: content.match(/##\s*Tags\s*\n([\s\S]*?)(?=\n##|\n---|\s*$)/i)

  /** ASCII lower case; the only folding a non-Unicode `/i` regex applies to `T`, `a`, `g`, `s`. */
  function Lower(c: char): char {
    if 'A' <= c <= 'Z' then (c as int - 'A' as int + 'a' as int) as char else c
  }

  /** `Tags`, in any letter case, at position `j`. */
  predicate IsTagsWordAt(s: string, j: nat) {
    j + 4 <= |s| && Lower(s[j]) == 't' && Lower(s[j + 1]) == 'a' && Lower(s[j + 2]) == 'g' && Lower(s[j + 3]) == 's'
  }

  /** The end of the run of white space starting at `i` (what a greedy `\s*` consumes). */
  function SkipSpaces(s: string, i: nat): (j: nat)
    requires i <= |s|
    ensures i <= j <= |s|
    ensures forall k | i <= k < j :: IsSpace(s[k])
    ensures j == |s| || !IsSpace(s[j])
    decreases |s| - i
  {
    if i < |s| && IsSpace(s[i]) then SkipSpaces(s, i + 1) else i
  }

  /** The last newline in `s[i..j]`. */
  function LastNewline(s: string, i: nat, j: nat): (r: Option<nat>)
    requires i <= j <= |s|
    ensures r.Some? ==> i <= r.value < j && s[r.value] == '\n' && forall m | r.value < m < j :: s[m] != '\n'
    ensures r.None? ==> forall m | i <= m < j :: s[m] != '\n'
    decreases j
  {
    if j == i then None
    else if s[j - 1] == '\n' then Some(j - 1)
    else LastNewline(s, i, j - 1)
  }

  /** If `##\s*Tags\s*\n` matches at `i`, where the capture group starts.
      Only the longest run before `Tags` can be followed by a letter; after `Tags`
      the greedy `\s*` gives back characters up to the last newline of its run. */
  function HeadingAt(s: string, i: nat): (r: Option<nat>)
    requires i <= |s|
    ensures r.Some? ==> i < r.value <= |s| && s[r.value - 1] == '\n'
  {
    if i + 2 <= |s| && s[i] == '#' && s[i + 1] == '#' then
      var j := SkipSpaces(s, i + 2);
      if IsTagsWordAt(s, j) then
        var k := SkipSpaces(s, j + 4);
        match LastNewline(s, j + 4, k)
        case Some(n) => Some(n + 1)
        case None => None
      else None
    else None
  }

  /** The heading matches at `i` with its capture starting at `c` exactly when `i` holds
      `##`, `Tags` in any letter case follows after white space, the text from there to `c`
      is white space ending in a newline, and the white space run that goes on from `c`
      holds no further newline (so `c` follows the last newline of that run). */
  lemma HeadingAtMeans(s: string, i: nat, c: nat)
    requires i <= |s|
    ensures HeadingAt(s, i) == Some(c) <==> HeadingShape(s, i, c)
  {
    if HeadingAt(s, i) == Some(c) {
      HeadingAtShape(s, i, c);
    }
    if HeadingShape(s, i, c) {
      ShapeHeadingAt(s, i, c);
    }
  }

  /** The declarative reading of `##\s*Tags\s*\n` at `i` with the capture starting at `c`. */
  predicate HeadingShape(s: string, i: nat, c: nat)
    requires i <= |s|
  {
    && i + 2 <= |s| && s[i] == '#' && s[i + 1] == '#'
    && var j := SkipSpaces(s, i + 2);
    && IsTagsWordAt(s, j)
    && j + 4 < c <= |s| && s[c - 1] == '\n'
    && (forall m | j + 4 <= m < c :: IsSpace(s[m]))
    && (forall m | c <= m < SkipSpaces(s, c) :: s[m] != '\n')
  }

  lemma HeadingAtShape(s: string, i: nat, c: nat)
    requires i <= |s| && HeadingAt(s, i) == Some(c)
    ensures HeadingShape(s, i, c)
  {
    var j := SkipSpaces(s, i + 2);
    SkipSpacesFrom(s, j + 4, c);
  }

  lemma ShapeHeadingAt(s: string, i: nat, c: nat)
    requires i <= |s| && HeadingShape(s, i, c)
    ensures HeadingAt(s, i) == Some(c)
  {
    var j := SkipSpaces(s, i + 2);
    var k := SkipSpaces(s, j + 4);
    SkipSpacesFrom(s, j + 4, c);
    var r := LastNewline(s, j + 4, k);
    assert r.Some?;
    assert r.value == c - 1;
  }

  /** Skipping white space from `a` passes over a white-space stretch `a..b` and ends
      where skipping from `b` ends. */
  lemma {:induction false} SkipSpacesFrom(s: string, a: nat, b: nat)
    requires a <= b <= |s|
    requires forall m | a <= m < b :: IsSpace(s[m])
    ensures SkipSpaces(s, a) == SkipSpaces(s, b)
    decreases b - a
  {
    if a < b {
      SkipSpacesFrom(s, a + 1, b);
    }
  }

  /** The leftmost match of the heading at or after `i`: its position and where its
      capture group starts. */
  function FindHeading(s: string, i: nat): (r: Option<(nat, nat)>)
    requires i <= |s|
    ensures r.Some? ==> i <= r.value.0 <= |s| && HeadingAt(s, r.value.0) == Some(r.value.1)
    decreases |s| - i
  {
    match HeadingAt(s, i)
    case Some(c) => Some((i, c))
    case None => if i == |s| then None else FindHeading(s, i + 1)
  }

  /** The match found is the leftmost one, and no match means no position matches. */
  lemma {:induction false} FindHeadingLeftmost(s: string, i: nat)
    requires i <= |s|
    ensures var r := FindHeading(s, i);
      && (r.Some? ==> forall m | i <= m < r.value.0 :: HeadingAt(s, m).None?)
      && (r.None? ==> forall m | i <= m <= |s| :: HeadingAt(s, m).None?)
    decreases |s| - i
  {
    var h := HeadingAt(s, i);
    if h.None? && i < |s| {
      var r := FindHeading(s, i + 1);
      assert FindHeading(s, i) == r;
      FindHeadingLeftmost(s, i + 1);
      var bound := if r.Some? then r.value.0 else |s| + 1;
      forall m | i <= m < bound ensures HeadingAt(s, m).None? {
        if m == i {
          assert HeadingAt(s, m) == h;
        }
      }
    }
  }

  /** The lookahead `(?=\n##|\n---|\s*$)` holds at `p`. */
  predicate SectionEndsAt(s: string, p: nat)
    requires p <= |s|
  {
    StartsWith(s[p..], "\n##") || StartsWith(s[p..], "\n---") || IsBlank(s[p..])
  }

  /** Where the lazy `[\s\S]*?` stops: the first position from `c` on at which the lookahead holds. */
  function SectionEnd(s: string, c: nat): (e: nat)
    requires c <= |s|
    ensures c <= e <= |s| && SectionEndsAt(s, e)
    ensures forall p | c <= p < e :: !SectionEndsAt(s, p)
    decreases |s| - c
  {
    if SectionEndsAt(s, c) then c else SectionEnd(s, c + 1)
  }

  /** The text of the capture group, if the heading occurs. */
  function TagsSection(body: string): (r: Option<string>)
    ensures r.None? <==> forall m | 0 <= m <= |body| :: HeadingAt(body, m).None?
  {
    FindHeadingLeftmost(body, 0);
    match FindHeading(body, 0)
    case Some((_, c)) => Some(body[c..SectionEnd(body, c)])
    case None => None
  }

  /** Removing the pattern `^-\s*` from a line: a leading dash and the white space after it go. */
  function StripBullet(line: string): string {
    if line != [] && line[0] == '-' then TrimStart(line[1..]) else line
  }

  /** A line starting with a dash loses that one dash and the white space run after it,
      and nothing more; any other line, `* tag` among them, is kept whole. */
  lemma StripBulletRemoves(line: string)
    ensures line != [] && line[0] == '-' ==>
      var r := StripBullet(line);
      && |r| < |line| && line[|line| - |r|..] == r
      && IsBlank(line[1..|line| - |r|])
      && (r == [] || !IsSpace(r[0]))
    ensures line == [] || line[0] != '-' ==> StripBullet(line) == line
  {
    if line != [] && line[0] == '-' {
      var t := line[1..];
      TrimStartDropsBlank(t);
      assert line[1..|line| - |TrimStart(t)|] == t[..|t| - |TrimStart(t)|];
    }
  }

  /** Each line loses its leading dash, is trimmed, and is dropped when nothing is left. */
  function CleanTags(lines: seq<string>): (tags: seq<string>)
    ensures |tags| <= |lines|
    decreases |lines|
  {
    if lines == [] then []
    else
      var t := Trim(StripBullet(lines[0]));
      var rest := CleanTags(lines[1..]);
      if t == [] then rest else [t] + rest
  }

  /** Every cleaned line is a tag: non-empty, with no white space at either end. */
  lemma {:induction false} CleanTagsAreTags(lines: seq<string>)
    ensures forall k | 0 <= k < |CleanTags(lines)| :: IsTag(CleanTags(lines)[k])
    decreases |lines|
  {
    if lines != [] {
      CleanTagsAreTags(lines[1..]);
      var t := Trim(StripBullet(lines[0]));
      if t != [] {
        ConsTags(t, CleanTags(lines[1..]));
      }
    }
  }

  lemma ConsTags(t: string, rest: seq<string>)
    requires IsTag(t) && forall k | 0 <= k < |rest| :: IsTag(rest[k])
    ensures forall k | 0 <= k < |[t] + rest| :: IsTag(([t] + rest)[k])
  {
    forall k | 0 <= k < |[t] + rest| ensures IsTag(([t] + rest)[k]) {
      if k > 0 {
        assert ([t] + rest)[k] == rest[k - 1];
      }
    }
  }

  /** A tag as the loader produces it: non-empty, no white space at either end. */
  predicate IsTag(t: string) {
    t != [] && !IsSpace(t[0]) && !IsSpace(t[|t| - 1])
  }

  /** The tag list of a markdown body, `[]` when there is no tags heading. */
  function ExtractTags(body: string): (tags: seq<string>)
    ensures forall k | 0 <= k < |tags| :: IsTag(tags[k])
    ensures TagsSection(body).None? ==> tags == []
  {
    match TagsSection(body)
    case Some(section) =>
      CleanTagsAreTags(Split(section, '\n'));
      CleanTags(Split(section, '\n'))
    case None => []
  }

  // ---------------------------------------------------------------------------
  // Tag round trip: a `## Tags` heading over a dash list yields the listed tags

  /** A tag that can be written as one `- tag` line. */
  predicate IsListableTag(t: string) {
    IsTag(t) && '\n' !in t
  }

  function Bullets(tags: seq<string>): (lines: seq<string>)
    ensures |lines| == |tags|
    ensures forall k | 0 <= k < |tags| :: lines[k] == "- " + tags[k]
  {
    if tags == [] then [] else ["- " + tags[0]] + Bullets(tags[1..])
  }

  /** The markdown `## Tags` section listing `tags` one per `- ` line. */
  function TagsBlock(tags: seq<string>): string {
    "## Tags\n" + (if tags == [] then "" else JoinWith(Bullets(tags), '\n'))
  }

  /** Every newline of `s` is followed by `- `. */
  predicate NewlinesOpenBullets(s: string) {
    forall p | 0 <= p < |s| && s[p] == '\n' :: p + 2 < |s| && s[p + 1] == '-' && s[p + 2] == ' '
  }

  /** In a join of `- ` lines every newline is followed by `- `. */
  lemma {:induction false} NewlinesStartBullets(lines: seq<string>)
    requires |lines| >= 1
    requires forall k | 0 <= k < |lines| :: |lines[k]| >= 2 && lines[k][0] == '-' && lines[k][1] == ' ' && '\n' !in lines[k]
    ensures NewlinesOpenBullets(JoinWith(lines, '\n'))
    decreases |lines|
  {
    var s := JoinWith(lines, '\n');
    if |lines| == 1 {
      forall p | 0 <= p < |s| ensures s[p] != '\n' {
        assert s[p] in lines[0];
      }
    } else {
      var head := lines[0];
      var tail := JoinWith(lines[1..], '\n');
      NewlinesStartBullets(lines[1..]);
      JoinEnds(lines[1..], '\n');
      assert s == head + ['\n'] + tail;
      assert |tail| >= 2 && tail[0] == '-' && tail[1] == ' ' by {
        assert tail[..|lines[1]|] == lines[1];
        assert tail[0] == tail[..|lines[1]|][0] && tail[1] == tail[..|lines[1]|][1];
      }
      forall p | 0 <= p < |head| ensures s[p] != '\n' {
        assert s[p] == head[p];
        assert head[p] in head;
      }
      forall p | |head| <= p < |s| && s[p] == '\n'
        ensures p + 2 < |s| && s[p + 1] == '-' && s[p + 2] == ' '
      {
        if p == |head| {
          assert s[p + 1] == tail[0] && s[p + 2] == tail[1];
        } else {
          var q := p - |head| - 1;
          assert s[p] == tail[q];
          assert NewlinesOpenBullets(tail);
          assert q + 2 < |tail| && tail[q + 1] == '-' && tail[q + 2] == ' ';
          assert s[p + 1] == tail[q + 1] && s[p + 2] == tail[q + 2];
        }
      }
    }
  }

  /** White space after the dash goes, and a tag keeps both its ends. */
  lemma CleanBullet(t: string)
    requires IsTag(t)
    ensures Trim(StripBullet("- " + t)) == t
  {
    var line := "- " + t;
    assert line[1..] == [' '] + t;
    TrimStartAfterSpace(' ', t);
    assert StripBullet(line) == TrimStart(t);
    TrimUnchanged(t);
    assert TrimStart(t) == t;
  }

  /** A line that cleans to a tag contributes that tag in front of the rest. */
  lemma CleanTagsCons(lines: seq<string>)
    requires lines != [] && Trim(StripBullet(lines[0])) != []
    ensures CleanTags(lines) == [Trim(StripBullet(lines[0]))] + CleanTags(lines[1..])
  {
  }

  lemma BulletsCons(tags: seq<string>)
    requires tags != []
    ensures Bullets(tags)[0] == "- " + tags[0]
    ensures Bullets(tags)[1..] == Bullets(tags[1..])
  {
  }

  /** Every element is a tag. */
  predicate AllTags(tags: seq<string>)
    decreases |tags|
  {
    tags == [] || (IsTag(tags[0]) && AllTags(tags[1..]))
  }

  lemma {:induction false} ListableAreTags(tags: seq<string>)
    requires forall k | 0 <= k < |tags| :: IsListableTag(tags[k])
    ensures AllTags(tags)
    decreases |tags|
  {
    if tags != [] {
      assert IsListableTag(tags[0]);
      forall k | 0 <= k < |tags| - 1 ensures IsListableTag(tags[1..][k]) {
        assert tags[1..][k] == tags[k + 1];
      }
      ListableAreTags(tags[1..]);
    }
  }

  /** Cleaning `- tag` lines gives back the tags. */
  lemma {:induction false} CleanBullets(tags: seq<string>)
    requires AllTags(tags)
    ensures CleanTags(Bullets(tags)) == tags
    decreases |tags|
  {
    if tags != [] {
      var t, rest := tags[0], tags[1..];
      CleanBulletsStep(tags);
      CleanBullets(rest);
      assert tags == [t] + rest;
    }
  }

  /** The first `- tag` line cleans to its tag. */
  lemma CleanBulletsStep(tags: seq<string>)
    requires tags != [] && IsTag(tags[0])
    ensures CleanTags(Bullets(tags)) == [tags[0]] + CleanTags(Bullets(tags[1..]))
  {
    var t := tags[0];
    var lines := Bullets(tags);
    BulletsCons(tags);
    CleanBullet(t);
    assert Trim(StripBullet(lines[0])) == t;
    CleanTagsCons(lines);
  }

  /** Any letter case matches `Tags`, and of two newlines after it the capture starts
      after the second, since the greedy `\s*` gives back no more than it must. */
  lemma HeadingExample()
    ensures HeadingAt("##tAgS \n\nx", 0) == Some(9)
  {
    var s := "##tAgS \n\nx";
    assert SkipSpaces(s, 2) == 2;
    assert IsTagsWordAt(s, 2);
    assert SkipSpaces(s, 9) == 9;
    assert SkipSpaces(s, 6) == 9;
    assert LastNewline(s, 6, 9) == Some(8);
  }

  /** `## Tags` and a newline, followed by the end or a non-space character,
      match the heading at 0 with the capture starting at 8. */
  lemma HeadingLine(s: string)
    requires |s| >= 8 && s[..8] == "## Tags\n"
    requires |s| == 8 || !IsSpace(s[8])
    ensures HeadingAt(s, 0) == Some(8)
  {
    assert s[0] == s[..8][0] == '#' && s[1] == s[..8][1] == '#';
    assert s[2] == s[..8][2] == ' ' && s[3] == s[..8][3] == 'T';
    assert s[4] == s[..8][4] == 'a' && s[5] == s[..8][5] == 'g';
    assert s[6] == s[..8][6] == 's' && s[7] == s[..8][7] == '\n';
    assert SkipSpaces(s, 3) == 3;
    assert SkipSpaces(s, 2) == 3;
    assert IsTagsWordAt(s, 3);
    assert SkipSpaces(s, 8) == 8;
    assert SkipSpaces(s, 7) == 8;
    assert LastNewline(s, 7, 8) == Some(7);
  }

  /** The capture group of a tags block starts right after its heading line. */
  lemma TagsBlockHeading(tags: seq<string>)
    requires forall k | 0 <= k < |tags| :: IsListableTag(tags[k])
    ensures FindHeading(TagsBlock(tags), 0) == Some((0, 8))
  {
    var s := TagsBlock(tags);
    if tags != [] {
      var lines := Bullets(tags);
      var body := JoinWith(lines, '\n');
      assert s == "## Tags\n" + body;
      JoinEnds(lines, '\n');
      var first := lines[0];
      assert first == "- " + tags[0];
      assert body[..|first|] == first;
      assert body[0] == '-' by { assert body[0] == body[..|first|][0]; }
      assert s[8] == body[0];
      assert s[..8] == "## Tags\n";
    } else {
      assert s == "## Tags\n";
    }
    HeadingLine(s);
  }

  /** When every newline from `c` on starts a `- ` line and the text ends in a
      non-space character, the lazy capture runs to the end of the text. */
  lemma SectionRunsToEnd(s: string, c: nat)
    requires c < |s| && !IsSpace(s[|s| - 1])
    requires NewlinesOpenBullets(s)
    ensures SectionEnd(s, c) == |s|
  {
    forall p | c <= p < |s| ensures !SectionEndsAt(s, p) {
      var rest := s[p..];
      assert rest[|rest| - 1] == s[|s| - 1];
      assert !IsBlank(rest);
      if s[p] == '\n' {
        assert rest[1] == s[p + 1] == '-' && rest[2] == s[p + 2] == ' ';
        assert !StartsWith(rest, "\n##") by { assert |rest| < 3 || rest[..3][1] == '-'; }
        assert !StartsWith(rest, "\n---") by { assert |rest| < 4 || rest[..4][2] == ' '; }
      } else {
        assert !StartsWith(rest, "\n##") by { assert |rest| < 3 || rest[..3][0] != '\n'; }
        assert !StartsWith(rest, "\n---") by { assert |rest| < 4 || rest[..4][0] != '\n'; }
      }
    }
    assert IsBlank(s[|s|..]);
    assert SectionEndsAt(s, |s|);
  }

  /** The joined bullet lines of listable tags: newlines open bullets, the text
      opens with `- ` and ends in a non-space character. */
  lemma BulletJoinShape(tags: seq<string>)
    requires tags != []
    requires forall k | 0 <= k < |tags| :: IsListableTag(tags[k])
    ensures var body := JoinWith(Bullets(tags), '\n');
      && |body| >= 2 && body[0] == '-' && body[1] == ' ' && !IsSpace(body[|body| - 1])
      && NewlinesOpenBullets(body)
  {
    var lines := Bullets(tags);
    var body := JoinWith(lines, '\n');
    forall k | 0 <= k < |lines|
      ensures |lines[k]| >= 2 && lines[k][0] == '-' && lines[k][1] == ' ' && '\n' !in lines[k]
    {
      assert lines[k] == "- " + tags[k];
    }
    NewlinesStartBullets(lines);
    JoinEnds(lines, '\n');
    assert body[..|lines[0]|] == lines[0];
    assert body[0] == body[..|lines[0]|][0] && body[1] == body[..|lines[0]|][1];
    var last := lines[|lines| - 1];
    var t := tags[|tags| - 1];
    assert last == "- " + t;
    assert body[|body| - |last|..] == last;
    assert body[|body| - 1] == last[|last| - 1] == t[|t| - 1];
  }

  /** The heading line keeps the property that newlines open bullets. */
  lemma HeadingOverBullets(body: string)
    requires |body| >= 2 && body[0] == '-' && body[1] == ' ' && NewlinesOpenBullets(body)
    ensures NewlinesOpenBullets("## Tags\n" + body)
  {
    var s := "## Tags\n" + body;
    forall p | 0 <= p < |s| && s[p] == '\n'
      ensures p + 2 < |s| && s[p + 1] == '-' && s[p + 2] == ' '
    {
      if p < 8 {
        assert s[..8] == "## Tags\n";
        assert p == 7;
      } else {
        var q := p - 8;
        assert s[p] == body[q];
        assert q + 2 < |body| && body[q + 1] == '-' && body[q + 2] == ' ';
      }
    }
  }

  /** The capture group under a heading over bullet lines is all of those lines. */
  lemma SectionOfBullets(body: string)
    requires |body| >= 2 && body[0] == '-' && body[1] == ' ' && !IsSpace(body[|body| - 1])
    requires NewlinesOpenBullets(body)
    ensures TagsSection("## Tags\n" + body) == Some(body)
  {
    var s := "## Tags\n" + body;
    assert s[..8] == "## Tags\n";
    assert s[8] == '-';
    HeadingLine(s);
    assert FindHeading(s, 0) == Some((0, 8));
    HeadingOverBullets(body);
    assert s[|s| - 1] == body[|body| - 1];
    SectionRunsToEnd(s, 8);
    assert s[8..|s|] == body;
  }

  /** A section written as `## Tags` over one `- tag` line per tag reads back as
      exactly those tags, in order. */
  lemma ExtractTagsBlock(tags: seq<string>)
    requires forall k | 0 <= k < |tags| :: IsListableTag(tags[k])
    ensures ExtractTags(TagsBlock(tags)) == tags
  {
    if tags == [] {
      EmptyTagsBlock();
    } else {
      var lines := Bullets(tags);
      var body := JoinWith(lines, '\n');
      assert TagsBlock(tags) == "## Tags\n" + body;
      BulletJoinShape(tags);
      SectionOfBullets(body);
      BulletLinesSplit(tags);
      ListableAreTags(tags);
      CleanBullets(tags);
    }
  }

  /** A heading over no bullets has an empty section and no tags. */
  lemma EmptyTagsBlock()
    ensures ExtractTags(TagsBlock([])) == []
  {
    var s := TagsBlock([]);
    TagsBlockHeading([]);
    assert IsBlank(s[8..]);
    assert SectionEndsAt(s, 8);
    assert Split(s[8..8], '\n') == [""];
  }

  /** Splitting the joined bullet lines at newlines gives the lines back. */
  lemma BulletLinesSplit(tags: seq<string>)
    requires tags != []
    requires forall k | 0 <= k < |tags| :: IsListableTag(tags[k])
    ensures Split(JoinWith(Bullets(tags), '\n'), '\n') == Bullets(tags)
  {
    var lines := Bullets(tags);
    forall k | 0 <= k < |lines| ensures '\n' !in lines[k] {
      BulletLineHasNoNewline(tags[k]);
    }
    JoinSplit(lines, '\n');
  }

  lemma BulletLineHasNoNewline(t: string)
    requires IsListableTag(t)
    ensures '\n' !in "- " + t
  {
    var line := "- " + t;
    forall i | 0 <= i < |line| ensures line[i] != '\n' {
      if i >= 2 {
        assert line[i] == t[i - 2];
      }
    }
  }

  /** The worked example: `- Bitcoin` and `- Ethereum` under `## Tags`. */
  lemma ExtractTagsExample()
    ensures ExtractTags("## Tags\n- Bitcoin\n- Ethereum") == ["Bitcoin", "Ethereum"]
  {
    var tags := ["Bitcoin", "Ethereum"];
    ExampleBlock(tags);
    ExampleListable(tags);
    ExtractTagsBlock(tags);
  }

  lemma ExampleBlock(tags: seq<string>)
    requires tags == ["Bitcoin", "Ethereum"]
    ensures TagsBlock(tags) == "## Tags\n- Bitcoin\n- Ethereum"
  {
    ExampleLines(tags);
    ExampleJoin(Bullets(tags));
  }

  lemma ExampleLines(tags: seq<string>)
    requires tags == ["Bitcoin", "Ethereum"]
    ensures Bullets(tags) == ["- Bitcoin", "- Ethereum"]
  {
    var lines := Bullets(tags);
    assert lines[0] == "- Bitcoin" && lines[1] == "- Ethereum";
  }

  lemma ExampleJoin(lines: seq<string>)
    requires lines == ["- Bitcoin", "- Ethereum"]
    ensures JoinWith(lines, '\n') == "- Bitcoin\n- Ethereum"
  {
    assert lines[1..] == ["- Ethereum"];
  }

  lemma ExampleListable(tags: seq<string>)
    requires tags == ["Bitcoin", "Ethereum"]
    ensures forall k | 0 <= k < |tags| :: IsListableTag(tags[k])
  {
    assert IsListableTag(tags[0]) && IsListableTag(tags[1]);
  }

  // ---------------------------------------------------------------------------
  // One post

  /** The file a slug resolves to: `<slug>.mdx` when it exists, else `<slug>.md`. */
  function ResolvePostPath(fs: FileSystem, dir: Path, slug: string): (r: Option<Path>)
    ensures r.Some? ==> Exists(fs, r.value)
    ensures r.Some? ==> r.value == Join(dir, slug + ".mdx") || r.value == Join(dir, slug + ".md")
    ensures r == Some(Join(dir, slug + ".md")) && r != Some(Join(dir, slug + ".mdx")) ==> !Exists(fs, Join(dir, slug + ".mdx"))
    ensures r.None? <==> !Exists(fs, Join(dir, slug + ".mdx")) && !Exists(fs, Join(dir, slug + ".md"))
  {
    if Exists(fs, Join(dir, slug + ".mdx")) then Some(Join(dir, slug + ".mdx"))
    else if Exists(fs, Join(dir, slug + ".md")) then Some(Join(dir, slug + ".md"))
    else None
  }

  /** Reads, parses and renders one file; every exception becomes `None`.
      Reading a path that is a directory throws. */
  function ReadPost(fs: FileSystem, path: Path, slug: string, libs: Libraries, now: string): (p: Option<Post>)
    ensures p.Some? ==> path in fs.files && p.value.slug == slug
    ensures p.Some? ==> forall k | 0 <= k < |p.value.tags| :: IsTag(p.value.tags[k])
  {
    if path !in fs.files then None
    else
      match libs.parseFrontMatter(fs.files[path])
      case None => None
      case Some(m) =>
        match libs.renderMarkdown(m.content)
        case None => None
        case Some(html) => Some(MakePost(slug, m.data, html, ExtractTags(m.content), now))
  }

  /** What `getPostBySlug` returns. */
  function LoadPost(fs: FileSystem, dir: Path, slug: string, libs: Libraries, now: string): (p: Option<Post>)
    ensures p.Some? ==> p.value.slug == slug
    ensures p.Some? ==> Join(dir, slug + ".mdx") in fs.files || Join(dir, slug + ".md") in fs.files
  {
    match ResolvePostPath(fs, dir, slug)
    case None => None
    case Some(path) => ReadPost(fs, path, slug, libs, now)
  }

  /** `getPostBySlug`: tries `<slug>.mdx`, falls back to `<slug>.md`, then reads the file. */
  method GetPostBySlug(fs: FileSystem, dir: Path, slug: string, libs: Libraries, now: string)
    returns (post: Option<Post>)
    ensures post == LoadPost(fs, dir, slug, libs, now)
    ensures post.Some? ==> post.value.slug == slug
  {
    var filePath := Join(dir, slug + ".mdx");
    if !Exists(fs, filePath) {
      filePath := Join(dir, slug + ".md");
      if !Exists(fs, filePath) {
        return None;
      }
    }
    if filePath !in fs.files {
      return None;
    }
    var parsed := libs.parseFrontMatter(fs.files[filePath]);
    if parsed.None? {
      return None;
    }
    var rendered := libs.renderMarkdown(parsed.value.content);
    if rendered.None? {
      return None;
    }
    var tags := ExtractTags(parsed.value.content);
    post := Some(MakePost(slug, parsed.value.data, rendered.value, tags, now));
  }

  /** A loaded post carries the requested slug, the rendered body of the file the slug
      resolved to, and the tags of that body. */
  lemma LoadPostContents(fs: FileSystem, dir: Path, slug: string, libs: Libraries, now: string)
    requires LoadPost(fs, dir, slug, libs, now).Some?
    ensures var p := LoadPost(fs, dir, slug, libs, now).value;
      && ResolvePostPath(fs, dir, slug).Some?
      && var path := ResolvePostPath(fs, dir, slug).value;
      && path in fs.files
      && libs.parseFrontMatter(fs.files[path]).Some?
      && var m := libs.parseFrontMatter(fs.files[path]).value;
      && p.slug == slug
      && libs.renderMarkdown(m.content) == Some(p.content)
      && p.tags == ExtractTags(m.content)
  {
  }

  /** Neither `<slug>.mdx` nor `<slug>.md` exists: not found. */
  lemma LoadPostMissing(fs: FileSystem, dir: Path, slug: string, libs: Libraries, now: string)
    requires !Exists(fs, Join(dir, slug + ".mdx")) && !Exists(fs, Join(dir, slug + ".md"))
    ensures LoadPost(fs, dir, slug, libs, now) == None
  {
  }

  /** When `<slug>.mdx` exists it is the file read, whatever `<slug>.md` holds; if it is a
      directory, the read throws and the post is not found. */
  lemma LoadPostPrefersMdx(fs: FileSystem, dir: Path, slug: string, libs: Libraries, now: string)
    requires Exists(fs, Join(dir, slug + ".mdx"))
    ensures LoadPost(fs, dir, slug, libs, now) == ReadPost(fs, Join(dir, slug + ".mdx"), slug, libs, now)
    ensures Join(dir, slug + ".mdx") !in fs.files ==> LoadPost(fs, dir, slug, libs, now) == None
  {
  }

  // ---------------------------------------------------------------------------
  // The listing

  /** `.filter(post => post !== null)`: the present values, in order. */
  function Successes<T>(results: seq<Option<T>>): (values: seq<T>)
    ensures |values| <= |results|
    decreases |results|
  {
    if results == [] then []
    else (if results[0].Some? then [results[0].value] else []) + Successes(results[1..])
  }

  /** Dropping the nulls keeps each value exactly as often as it occurs. */
  lemma {:induction false} SuccessesCount<T>(results: seq<Option<T>>, x: T)
    ensures multiset(Successes(results))[x] == multiset(results)[Some(x)]
    decreases |results|
  {
    if results != [] {
      SuccessesCount(results[1..], x);
      assert results == [results[0]] + results[1..];
    }
  }

  /** `getPostBySlug` on each slug: what `Promise.all` collects. */
  function LoadResults(fs: FileSystem, dir: Path, slugs: seq<string>, libs: Libraries, now: string): (results: seq<Option<Post>>)
    ensures |results| == |slugs|
  {
    seq(|slugs|, k requires 0 <= k < |slugs| => LoadPost(fs, dir, slugs[k], libs, now))
  }

  /** Newest first: timestamps never increase along the list. */
  predicate NewestFirst(posts: seq<Post>, timestamp: string -> int) {
    forall i, j | 0 <= i < j < |posts| :: timestamp(posts[i].date) >= timestamp(posts[j].date)
  }

  /** Everything in a multiset-bounded list is bounded by a post that is newer than all of it. */
  lemma NewerThanAll(top: Post, p: Post, rest: seq<Post>, sorted: seq<Post>, timestamp: string -> int)
    requires multiset(rest) == multiset(sorted) + multiset{p}
    requires timestamp(p.date) < timestamp(top.date)
    requires forall k | 0 <= k < |sorted| :: timestamp(sorted[k].date) <= timestamp(top.date)
    ensures forall k | 0 <= k < |rest| :: timestamp(rest[k].date) <= timestamp(top.date)
  {
    forall k | 0 <= k < |rest| ensures timestamp(rest[k].date) <= timestamp(top.date) {
      assert rest[k] in multiset(rest);
      if rest[k] != p {
        assert rest[k] in multiset(sorted);
        var j :| 0 <= j < |sorted| && sorted[j] == rest[k];
      }
    }
  }

  /** A post at least as new as everything in a newest-first list can go in front of it. */
  lemma PrependNewest(top: Post, rest: seq<Post>, timestamp: string -> int)
    requires NewestFirst(rest, timestamp)
    requires forall k | 0 <= k < |rest| :: timestamp(rest[k].date) <= timestamp(top.date)
    ensures NewestFirst([top] + rest, timestamp)
  {
    var r := [top] + rest;
    forall i, j | 0 <= i < j < |r| ensures timestamp(r[i].date) >= timestamp(r[j].date) {
      assert r[j] == rest[j - 1];
      if i > 0 { assert r[i] == rest[i - 1]; }
    }
  }

  /** Inserts `p` before the first post that is not newer than it. */
  function InsertByDate(p: Post, sorted: seq<Post>, timestamp: string -> int): (r: seq<Post>)
    requires NewestFirst(sorted, timestamp)
    ensures multiset(r) == multiset(sorted) + multiset{p}
    ensures NewestFirst(r, timestamp)
    decreases |sorted|
  {
    if sorted == [] || timestamp(sorted[0].date) <= timestamp(p.date) then
      PrependNewest(p, sorted, timestamp);
      [p] + sorted
    else
      var top := sorted[0];
      var rest := InsertByDate(p, sorted[1..], timestamp);
      assert sorted == [top] + sorted[1..];
      NewerThanAll(top, p, rest, sorted[1..], timestamp);
      PrependNewest(top, rest, timestamp);
      [top] + rest
  }

  /** `.sort((a, b) => time(b.date) - time(a.date))`: a stable sort, newest first. */
  function SortNewestFirst(posts: seq<Post>, timestamp: string -> int): (r: seq<Post>)
    ensures multiset(r) == multiset(posts)
    ensures NewestFirst(r, timestamp)
    decreases |posts|
  {
    if posts == [] then []
    else
      assert posts == [posts[0]] + posts[1..];
      InsertByDate(posts[0], SortNewestFirst(posts[1..], timestamp), timestamp)
  }

  /** What `getAllPosts` returns. */
  function AllPosts(fs: FileSystem, dir: Path, libs: Libraries, now: string): (posts: seq<Post>)
    ensures NewestFirst(posts, libs.timestamp)
    ensures dir !in fs.dirs ==> posts == []
  {
    if !Exists(fs, dir) then []
    else if dir !in fs.dirs then []  // readdirSync on a file throws; the catch returns []
    else
      var slugs := MarkdownSlugs(fs.dirs[dir]);
      SortNewestFirst(Successes(LoadResults(fs, dir, slugs, libs, now)), libs.timestamp)
  }

  /** `getAllPosts`: one `getPostBySlug` per markdown name, in listing order, then the
      nulls dropped and the rest sorted. */
  method GetAllPosts(fs: FileSystem, dir: Path, libs: Libraries, now: string) returns (posts: seq<Post>)
    ensures posts == AllPosts(fs, dir, libs, now)
    ensures NewestFirst(posts, libs.timestamp)
  {
    if !Exists(fs, dir) {
      return [];
    }
    if dir !in fs.dirs {
      return [];
    }
    var slugs := MarkdownSlugs(fs.dirs[dir]);
    var results: seq<Option<Post>> := [];
    for i := 0 to |slugs|
      invariant |results| == i
      invariant forall k | 0 <= k < i :: results[k] == LoadPost(fs, dir, slugs[k], libs, now)
    {
      var post := GetPostBySlug(fs, dir, slugs[i], libs, now);
      results := results + [post];
    }
    assert results == LoadResults(fs, dir, slugs, libs, now);
    posts := SortNewestFirst(Successes(results), libs.timestamp);
  }

  /** No posts directory, or a posts path that is not a directory: the listing is empty. */
  lemma AllPostsWithoutDirectory(fs: FileSystem, dir: Path, libs: Libraries, now: string)
    requires dir !in fs.dirs
    ensures AllPosts(fs, dir, libs, now) == []
  {
  }

  /** The listing is newest first, is never longer than the directory, and holds each post
      exactly as often as a markdown name of the directory loads to it. */
  lemma AllPostsContents(fs: FileSystem, dir: Path, libs: Libraries, now: string, p: Post)
    requires dir in fs.dirs
    ensures var posts := AllPosts(fs, dir, libs, now);
      var slugs := MarkdownSlugs(fs.dirs[dir]);
      && NewestFirst(posts, libs.timestamp)
      && |posts| <= |slugs| <= |fs.dirs[dir]|
      && multiset(posts)[p] == multiset(LoadResults(fs, dir, slugs, libs, now))[Some(p)]
  {
    var slugs := MarkdownSlugs(fs.dirs[dir]);
    SuccessesCount(LoadResults(fs, dir, slugs, libs, now), p);
  }

  /** Only markdown names yield slugs, each the name without its extension, in listing order:
      the slugs are those of the markdown names, one by one. */
  lemma MarkdownSlugsOfNames(names: seq<string>, k: nat)
    requires k < |names| && IsMarkdownName(names[k])
    ensures var before := MarkdownSlugs(names[..k]);
      && |before| < |MarkdownSlugs(names)|
      && MarkdownSlugs(names)[|before|] == SlugOf(names[k])
      && MarkdownSlugs(names)[|before|] + Extension(names[k]) == names[k]
  {
    MarkdownSlugAt(names, k);
  }

  lemma MarkdownSlugAt(names: seq<string>, k: nat)
    requires k < |names| && IsMarkdownName(names[k])
    ensures var before := MarkdownSlugs(names[..k]);
      && |before| < |MarkdownSlugs(names)|
      && MarkdownSlugs(names)[|before|] == SlugOf(names[k])
  {
    var before, through, after := names[..k], names[..k + 1], names[k + 1..];
    assert names == through + after;
    MarkdownSlugsAppend(through, after);
    MarkdownSlugsPrefix(names, k);
  }

  /** The slugs of two listings one after the other are the slugs of each, in order. */
  lemma {:induction false} MarkdownSlugsAppend(a: seq<string>, b: seq<string>)
    ensures MarkdownSlugs(a + b) == MarkdownSlugs(a) + MarkdownSlugs(b)
    decreases |a|
  {
    if a == [] {
      assert a + b == b;
    } else {
      var h := if IsMarkdownName(a[0]) then [SlugOf(a[0])] else [];
      var x, y := MarkdownSlugs(a[1..]), MarkdownSlugs(b);
      MarkdownSlugsAppend(a[1..], b);
      assert (a + b)[0] == a[0];
      assert (a + b)[1..] == a[1..] + b;
      assert MarkdownSlugs(a) == h + x;
      assert MarkdownSlugs(a + b) == h + (x + y);
    }
  }

  /** Reading one more name of the listing: a markdown name adds its slug at the end,
      any other name adds nothing. */
  lemma MarkdownSlugsPrefix(names: seq<string>, k: nat)
    requires k < |names|
    ensures IsMarkdownName(names[k]) ==>
      MarkdownSlugs(names[..k + 1]) == MarkdownSlugs(names[..k]) + [SlugOf(names[k])]
    ensures !IsMarkdownName(names[k]) ==> MarkdownSlugs(names[..k + 1]) == MarkdownSlugs(names[..k])
  {
    var one := [names[k]];
    assert names[..k + 1] == names[..k] + one;
    MarkdownSlugsAppend(names[..k], one);
    assert one[1..] == [];
  }

  /** A listing with no markdown name yields no slug. */
  lemma {:induction false} NoMarkdownNoSlugs(names: seq<string>)
    requires forall k | 0 <= k < |names| :: !IsMarkdownName(names[k])
    ensures MarkdownSlugs(names) == []
    decreases |names|
  {
    if names != [] {
      assert !IsMarkdownName(names[0]);
      NoMarkdownNoSlugs(names[1..]);
    }
  }

  /** `<slug>.md` and `<slug>.mdx` side by side: the listing loads the slug twice, both
      times from the `.mdx` file. */
  lemma DuplicateSlugReadsMdxTwice(fs: FileSystem, dir: Path, slug: string, libs: Libraries, now: string)
    requires Join(dir, slug + ".mdx") in fs.files && Join(dir, slug + ".md") in fs.files
    ensures MarkdownSlugs([slug + ".md", slug + ".mdx"]) == [slug, slug]
    ensures var once := ReadPost(fs, Join(dir, slug + ".mdx"), slug, libs, now);
      LoadResults(fs, dir, [slug, slug], libs, now) == [once, once]
  {
    DuplicateSlugNames(slug);
    var once := ReadPost(fs, Join(dir, slug + ".mdx"), slug, libs, now);
    LoadPostPrefersMdx(fs, dir, slug, libs, now);
    var results := LoadResults(fs, dir, [slug, slug], libs, now);
    assert results[0] == once && results[1] == once;
  }

  /** `<slug>.md` and `<slug>.mdx` both give `slug`. */
  lemma DuplicateSlugNames(slug: string)
    ensures MarkdownSlugs([slug + ".md", slug + ".mdx"]) == [slug, slug]
  {
    var md, mdx := slug + ".md", slug + ".mdx";
    assert md[|md| - 3..] == ".md";
    assert !EndsWith(md, ".mdx") by {
      assert |md| < 4 || md[|md| - 4..][3] == 'd';
    }
    assert mdx[|mdx| - 4..] == ".mdx";
    assert SlugOf(md) == slug;
    assert SlugOf(mdx) == slug;
    var names := [md, mdx];
    assert names[1..] == [mdx] && names[1..][1..] == [];
  }

  // ---------------------------------------------------------------------------
  // Reading time

  /** `Math.ceil(n / d)` for a natural `n`. */
  function CeilDiv(n: nat, d: nat): nat
    requires d > 0
  {
    (n + d - 1) / d
  }

  /** `calculateReadingTime`: minutes at 200 words a minute, counting the pieces of
      `content.trim().split(/\s+/)`. */
  function ReadingTime(content: string): (minutes: nat)
    ensures minutes >= 1
  {
    CeilDiv(|SplitOnSpaces(Trim(content))|, 200)
  }

  /** The reading time is the least number of minutes covering all words, and at least one
      minute, even for blank content, whose split still yields one (empty) piece. */
  lemma ReadingTimeBounds(content: string)
    ensures var words := |SplitOnSpaces(Trim(content))|;
      var minutes := ReadingTime(content);
      && minutes >= 1
      && minutes * 200 >= words
      && (minutes - 1) * 200 < words
    ensures IsBlank(content) ==> ReadingTime(content) == 1
  {
    if IsBlank(content) {
      TrimEmptyIffBlank(content);
    }
  }

  /** Text made of `words` separated by single spaces reads in ceil(|words| / 200) minutes. */
  lemma ReadingTimeOfWords(words: seq<string>)
    requires |words| >= 1
    requires forall k | 0 <= k < |words| :: IsWord(words[k])
    ensures ReadingTime(JoinWith(words, ' ')) == CeilDiv(|words|, 200)
  {
    JoinedWordsTrimmed(words);
    SplitOnSpacesJoin(words);
  }
}
