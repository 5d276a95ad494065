/** The media bookkeeping of src/posts/posts.service.ts over the life of a post. */
module Posts {
  import opened Options
  import opened MarkdownImages

  type PostId = nat

  /** The columns that decide what media a post references and when it went live. */
  datatype Post = Post(content: string, contentEn: Option<string>, contentEs: Option<string>,
                       coverUrl: Option<string>, coverUrlEn: Option<string>, coverUrlEs: Option<string>,
                       isPublished: bool, publishedAt: Option<nat>)

  /** An update payload: absent fields are left alone, and none can be set to NULL. */
  datatype Patch = Patch(content: Option<string>, contentEn: Option<string>, contentEs: Option<string>,
                         coverUrl: Option<string>, coverUrlEn: Option<string>, coverUrlEs: Option<string>,
                         isPublished: Option<bool>)

  // ---------- What a post references ----------

  /** The contents that are scanned: a missing or empty one is skipped. */
  function Contents(p: Post): seq<Option<string>> {
    [Some(p.content), p.contentEn, p.contentEs]
  }

  function Covers(p: Post): seq<Option<string>> {
    [p.coverUrl, p.coverUrlEn, p.coverUrlEs]
  }

  ghost function SetOf(keys: seq<string>): set<string> {
    set key | key in keys
  }

  ghost function InlineKeys(prefix: string, contents: seq<Option<string>>): set<string> {
    if contents == [] then {}
    else
      var last := contents[|contents| - 1];
      InlineKeys(prefix, contents[..|contents| - 1])
      + (if last.Some? then SetOf(ExtractBucketKeysFromContent(prefix, last.value)) else {})
  }

  /** A cover on the bare prefix has the empty key, which is not a key to collect. */
  ghost function CoverKeys(prefix: string, covers: seq<Option<string>>): set<string> {
    if covers == [] then {}
    else
      var key := ExtractBucketKeyFromUrl(prefix, covers[|covers| - 1]);
      CoverKeys(prefix, covers[..|covers| - 1]) + (if key.Some? && key.value != "" then {key.value} else {})
  }

  /** Every bucket object a post references. */
  ghost function MediaKeys(prefix: string, p: Post): set<string> {
    InlineKeys(prefix, Contents(p)) + CoverKeys(prefix, Covers(p))
  }

  /** Some image in the content has the URL. */
  ghost predicate Shows(content: string, url: string) {
    exists image :: image in Scan(content) && image.Url() == url
  }

  /** A key is referenced if, behind the prefix, it is the URL of an image in some content or, not empty, of a cover. */
  lemma MediaKeysAreTheReferences(prefix: string, p: Post, key: string)
    ensures key in MediaKeys(prefix, p) <==>
      || Shows(p.content, prefix + key)
      || (p.contentEn.Some? && Shows(p.contentEn.value, prefix + key))
      || (p.contentEs.Some? && Shows(p.contentEs.value, prefix + key))
      || (key != "" && (p.coverUrl == Some(prefix + key) || p.coverUrlEn == Some(prefix + key)
                        || p.coverUrlEs == Some(prefix + key)))
  {
    InlineReferences(prefix, Contents(p), key);
    CoverReferences(prefix, Covers(p), key);
    assert Contents(p)[0] == Some(p.content) && Contents(p)[1] == p.contentEn && Contents(p)[2] == p.contentEs;
    assert Covers(p)[0] == p.coverUrl && Covers(p)[1] == p.coverUrlEn && Covers(p)[2] == p.coverUrlEs;
  }

  lemma {:induction false} HostedKeyIsShown(prefix: string, images: seq<Image>, key: string)
    ensures key in HostedKeys(prefix, images) <==> exists image :: image in images && image.Url() == prefix + key
  {
    if images != [] {
      HostedKeyIsShown(prefix, images[1..], key);
      KeyExactlyWhen(prefix, Some(images[0].Url()), key);
      assert images == [images[0]] + images[1..];
    }
  }

  lemma {:induction false} InlineReferences(prefix: string, contents: seq<Option<string>>, key: string)
    ensures key in InlineKeys(prefix, contents) <==>
      exists i :: 0 <= i < |contents| && contents[i].Some? && Shows(contents[i].value, prefix + key)
  {
    if contents != [] {
      var last := contents[|contents| - 1];
      InlineReferences(prefix, contents[..|contents| - 1], key);
      if last.Some? {
        HostedKeyIsShown(prefix, Scan(last.value), key);
      }
    }
  }

  lemma {:induction false} CoverReferences(prefix: string, covers: seq<Option<string>>, key: string)
    ensures key in CoverKeys(prefix, covers) <==>
      key != "" && exists i :: 0 <= i < |covers| && covers[i] == Some(prefix + key)
  {
    if covers != [] {
      CoverReferences(prefix, covers[..|covers| - 1], key);
      KeyExactlyWhen(prefix, covers[|covers| - 1], key);
    }
  }

  /** Adding to a JavaScript Set: insertion order, no repeats. */
  function Add(keys: seq<string>, key: string): seq<string> {
    if key in keys then keys else keys + [key]
  }

  predicate NoRepeats(keys: seq<string>) {
    forall i, j :: 0 <= i < j < |keys| ==> keys[i] != keys[j]
  }

  method AddAll(keys: seq<string>, found: seq<string>) returns (all: seq<string>)
    requires NoRepeats(keys)
    ensures NoRepeats(all) && SetOf(all) == SetOf(keys) + SetOf(found)
  {
    all := keys;
    for j := 0 to |found|
      invariant NoRepeats(all) && SetOf(all) == SetOf(keys) + SetOf(found[..j])
    {
      assert SetOf(Add(all, found[j])) == SetOf(all) + {found[j]};
      assert SetOf(found[..j + 1]) == SetOf(found[..j]) + {found[j]};
      all := Add(all, found[j]);
    }
    assert found[..|found|] == found;
  }

  method CollectMediaKeys(prefix: string, p: Post) returns (keys: seq<string>)
    ensures NoRepeats(keys) && SetOf(keys) == MediaKeys(prefix, p)
  {
    keys := [];
    var contents, covers := Contents(p), Covers(p);
    for i := 0 to |contents|
      invariant NoRepeats(keys) && SetOf(keys) == InlineKeys(prefix, contents[..i])
    {
      assert contents[..i + 1][..i] == contents[..i];
      if contents[i].Some? && contents[i].value != "" {
        keys := AddAll(keys, ExtractBucketKeysFromContent(prefix, contents[i].value));
      }
    }
    assert contents[..|contents|] == contents;
    for i := 0 to |covers|
      invariant NoRepeats(keys) && SetOf(keys) == InlineKeys(prefix, contents) + CoverKeys(prefix, covers[..i])
    {
      assert covers[..i + 1][..i] == covers[..i];
      var key := ExtractBucketKeyFromUrl(prefix, covers[i]);
      if key.Some? && key.value != "" {
        assert SetOf(Add(keys, key.value)) == SetOf(keys) + {key.value};
        keys := Add(keys, key.value);
      }
    }
    assert covers[..|covers|] == covers;
  }

  /** `existing.filter((key) => !kept.has(key))`. */
  function Dropped(existing: seq<string>, kept: seq<string>): (dropped: seq<string>)
    ensures forall key :: key in dropped <==> key in existing && key !in kept
    ensures NoRepeats(existing) ==> NoRepeats(dropped)
  {
    if existing == [] then []
    else
      var last, front := existing[|existing| - 1], existing[..|existing| - 1];
      assert existing == front + [last];
      if last in kept then Dropped(front, kept) else Dropped(front, kept) + [last]
  }

  // ---------- The life of a post ----------

  function OrKeep<T>(patch: Option<T>, current: Option<T>): Option<T> {
    if patch.Some? then patch else current
  }

  function Merged(p: Post, d: Patch): Post {
    var content := if d.content.Some? then d.content.value else p.content;
    var isPublished := if d.isPublished.Some? then d.isPublished.value else p.isPublished;
    Post(content, OrKeep(d.contentEn, p.contentEn), OrKeep(d.contentEs, p.contentEs),
         OrKeep(d.coverUrl, p.coverUrl), OrKeep(d.coverUrlEn, p.coverUrlEn), OrKeep(d.coverUrlEs, p.coverUrlEs),
         isPublished, p.publishedAt)
  }

  /** The row an update leaves; `publishedAt` is stamped the first time the post goes live. */
  function Patched(p: Post, d: Patch, now: nat): Post {
    var goesLive := p.publishedAt.None? && d.isPublished == Some(true);
    Merged(p, d).(publishedAt := if goesLive then Some(now) else p.publishedAt)
  }

  datatype Op =
    | Create(content: string, rest: Patch, now: nat, fails: bool)
    | Update(patch: Patch, now: nat, fails: bool)
    | Remove

  function Created(content: string, d: Patch, now: nat): Post {
    var live := d.isPublished == Some(true);
    Post(content, d.contentEn, d.contentEs, d.coverUrl, d.coverUrlEn, d.coverUrlEs,
         live, if live then Some(now) else None)
  }

  /** The row after an operation: a failed transaction leaves it as it was. */
  function RowAfter(row: Option<Post>, op: Op): Option<Post> {
    match op
    case Create(content, rest, now, fails) => if row.None? && !fails then Some(Created(content, rest, now)) else row
    case Update(patch, now, fails) => if row.Some? && !fails then Some(Patched(row.value, patch, now)) else row
    case Remove => None
  }

  ghost function KeysOf(prefix: string, row: Option<Post>): set<string> {
    if row.Some? then MediaKeys(prefix, row.value) else {}
  }

  /** The keys an operation hands to `deleteFiles`. */
  ghost function PassedBy(prefix: string, row: Option<Post>, op: Op): set<string> {
    if op.Create? then {} else KeysOf(prefix, row) - KeysOf(prefix, RowAfter(row, op))
  }

  /** A post with its history: what its versions ever referenced, and what was passed to `deleteFiles`. */
  datatype Life = Life(row: Option<Post>, referenced: set<string>, passed: set<string>)

  ghost function Live(prefix: string, ops: seq<Op>): Life {
    if ops == [] then Life(None, {}, {})
    else
      var before, op := Live(prefix, ops[..|ops| - 1]), ops[|ops| - 1];
      var row := RowAfter(before.row, op);
      Life(row, before.referenced + KeysOf(prefix, row), before.passed + PassedBy(prefix, before.row, op))
  }

  /** No operation passes on a key that the row it leaves still references, and a failed one passes none. */
  lemma OnlyDroppedMediaIsPassed(prefix: string, row: Option<Post>, op: Op)
    ensures PassedBy(prefix, row, op) !! KeysOf(prefix, RowAfter(row, op))
    ensures op.Update? && op.fails ==> PassedBy(prefix, row, op) == {}
    ensures op.Remove? ==> PassedBy(prefix, row, op) == KeysOf(prefix, row)
  {
  }

  /**
   Conservation: at any point of any life, what was ever referenced is what is referenced or was passed on. No step
   passes on a key the row it leaves still references, a failed update passes none, and a removal all there were.
   */
  lemma {:induction false} MediaIsConserved(prefix: string, ops: seq<Op>)
    ensures var life := Live(prefix, ops);
            && life.referenced == KeysOf(prefix, life.row) + life.passed
            && (life.row.None? ==> life.passed == life.referenced)
    ensures ops != [] ==>
              var before, op, life := Live(prefix, ops[..|ops| - 1]), ops[|ops| - 1], Live(prefix, ops);
              var passed := PassedBy(prefix, before.row, op);
              && life.passed == before.passed + passed
              && passed !! KeysOf(prefix, life.row)
              && (op.Update? && op.fails ==> passed == {})
              && (op.Remove? ==> passed == KeysOf(prefix, before.row))
  {
    if ops != [] {
      MediaIsConserved(prefix, ops[..|ops| - 1]);
      OnlyDroppedMediaIsPassed(prefix, Live(prefix, ops[..|ops| - 1]).row, ops[|ops| - 1]);
    }
  }

  /** The fields of `p` a patch does not mention. */
  function UntouchedContents(p: Post, d: Patch): seq<Option<string>> {
    [if d.content.None? then Some(p.content) else None, if d.contentEn.None? then p.contentEn else None,
     if d.contentEs.None? then p.contentEs else None]
  }

  function UntouchedCovers(p: Post, d: Patch): seq<Option<string>> {
    [if d.coverUrl.None? then p.coverUrl else None, if d.coverUrlEn.None? then p.coverUrlEn else None,
     if d.coverUrlEs.None? then p.coverUrlEs else None]
  }

  lemma {:induction false} MoreInlineKeys(prefix: string, xs: seq<Option<string>>, ys: seq<Option<string>>)
    requires |xs| == |ys| && forall i :: 0 <= i < |xs| ==> xs[i].None? || xs[i] == ys[i]
    ensures InlineKeys(prefix, xs) <= InlineKeys(prefix, ys)
  {
    if xs != [] {
      MoreInlineKeys(prefix, xs[..|xs| - 1], ys[..|ys| - 1]);
    }
  }

  lemma {:induction false} MoreCoverKeys(prefix: string, xs: seq<Option<string>>, ys: seq<Option<string>>)
    requires |xs| == |ys| && forall i :: 0 <= i < |xs| ==> xs[i].None? || xs[i] == ys[i]
    ensures CoverKeys(prefix, xs) <= CoverKeys(prefix, ys)
  {
    if xs != [] {
      MoreCoverKeys(prefix, xs[..|xs| - 1], ys[..|ys| - 1]);
    }
  }

  /** A partial update never passes on media of a field it does not mention. */
  lemma UntouchedFieldsKeepTheirMedia(prefix: string, p: Post, d: Patch, now: nat)
    ensures PassedBy(prefix, Some(p), Update(d, now, false))
            !! InlineKeys(prefix, UntouchedContents(p, d)) + CoverKeys(prefix, UntouchedCovers(p, d))
  {
    var q := Patched(p, d, now);
    MoreInlineKeys(prefix, UntouchedContents(p, d), Contents(q));
    MoreCoverKeys(prefix, UntouchedCovers(p, d), Covers(q));
  }

  lemma {:induction false} LivePostsHaveADate(prefix: string, ops: seq<Op>)
    ensures var row := Live(prefix, ops).row; row.Some? && row.value.isPublished ==> row.value.publishedAt.Some?
  {
    if ops != [] {
      LivePostsHaveADate(prefix, ops[..|ops| - 1]);
    }
  }

  /** Once stamped, the publication date survives every edit, unpublishing and republishing. */
  lemma {:induction false} PublicationDateIsStampedOnce(prefix: string, ops: seq<Op>, n: nat)
    requires n <= |ops| && forall i :: n <= i < |ops| ==> !ops[i].Remove?
    requires var row := Live(prefix, ops[..n]).row; row.Some? && row.value.publishedAt.Some?
    ensures var row := Live(prefix, ops).row;
            row.Some? && row.value.publishedAt == Live(prefix, ops[..n]).row.value.publishedAt
  {
    if n == |ops| {
      assert ops[..n] == ops;
    } else {
      assert ops[..|ops| - 1][..n] == ops[..n];
      PublicationDateIsStampedOnce(prefix, ops[..|ops| - 1], n);
    }
  }

  // ---------- What a row holds ----------

  datatype Column = Content | ContentEn | ContentEs | CoverUrl | CoverUrlEn | CoverUrlEs

  function Of(p: Post, c: Column): Option<string> {
    match c
    case Content => Some(p.content)
    case ContentEn => p.contentEn
    case ContentEs => p.contentEs
    case CoverUrl => p.coverUrl
    case CoverUrlEn => p.coverUrlEn
    case CoverUrlEs => p.coverUrlEs
  }

  function Mentioned(d: Patch, c: Column): Option<string> {
    match c
    case Content => d.content
    case ContentEn => d.contentEn
    case ContentEs => d.contentEs
    case CoverUrl => d.coverUrl
    case CoverUrlEn => d.coverUrlEn
    case CoverUrlEs => d.coverUrlEs
  }

  /** What an operation gives for a column; a creation gives every column, if only its absence. */
  function Given(op: Op, c: Column): Option<string> {
    match op
    case Create(content, rest, _, _) => if c == Content then Some(content) else Mentioned(rest, c)
    case Update(patch, _, _) => Mentioned(patch, c)
    case Remove => None
  }

  /** What it says about being published; a creation that does not say leaves the post a draft. */
  function SaysPublished(op: Op): Option<bool> {
    match op
    case Create(_, rest, _, _) => Some(rest.isPublished == Some(true))
    case Update(patch, _, _) => patch.isPublished
    case Remove => None
  }

  /** There is a row after these operations. */
  predicate Exists(ops: seq<Op>) {
    ops != [] &&
    match ops[|ops| - 1]
    case Create(_, _, _, fails) => !fails || Exists(ops[..|ops| - 1])
    case Update(_, _, _) => Exists(ops[..|ops| - 1])
    case Remove => false
  }

  /** Operation `n` is a successful creation or update. */
  predicate Succeeds(ops: seq<Op>, n: int) {
    && 0 <= n < |ops| && !ops[n].Remove? && !ops[n].fails
    && (ops[n].Create? <==> !Exists(ops[..n]))
  }

  /** Operation `n` was the last successful one to say something about the column; no removal came after. */
  ghost predicate LastToGive(ops: seq<Op>, n: int, c: Column) {
    && Succeeds(ops, n) && (ops[n].Create? || Given(ops[n], c).Some?)
    && forall m :: n < m < |ops| ==> !ops[m].Remove? && (Succeeds(ops, m) ==> ops[m].Update? && Given(ops[m], c).None?)
  }

  ghost predicate LastToSayPublished(ops: seq<Op>, n: int) {
    && Succeeds(ops, n) && SaysPublished(ops[n]).Some?
    && forall m :: n < m < |ops| ==> !ops[m].Remove? && (Succeeds(ops, m) ==> SaysPublished(ops[m]).None?)
  }

  /** Operation `n` set the post live, and none before it did since the last removal. */
  ghost predicate FirstToPublish(ops: seq<Op>, n: int) {
    && Publishes(ops, n) && !RemovedAfter(ops, n)
    && forall m :: 0 <= m < n && Publishes(ops, m) ==> RemovedAfter(ops, m)
  }

  predicate Publishes(ops: seq<Op>, n: int) {
    Succeeds(ops, n) && SaysPublished(ops[n]) == Some(true)
  }

  lemma {:induction false} SucceedsInFront(ops: seq<Op>, n: int)
    requires 0 <= n < |ops| - 1
    ensures Succeeds(ops[..|ops| - 1], n) <==> Succeeds(ops, n)
  {
    assert ops[..|ops| - 1][..n] == ops[..n];
  }

  lemma {:induction false} RowExists(prefix: string, ops: seq<Op>)
    ensures Live(prefix, ops).row.Some? <==> Exists(ops)
  {
    if ops != [] {
      RowExists(prefix, ops[..|ops| - 1]);
    }
  }

  lemma OpGivesColumn(row: Option<Post>, op: Op, c: Column)
    requires RowAfter(row, op).Some?
    ensures var after := Of(RowAfter(row, op).value, c);
            if !op.fails && (op.Create? <==> row.None?) && (op.Create? || Given(op, c).Some?) then after == Given(op, c)
            else row.Some? && after == Of(row.value, c)
  {
  }

  lemma LastToGiveStays(ops: seq<Op>, n: int, c: Column)
    requires ops != [] && LastToGive(ops[..|ops| - 1], n, c) && !ops[|ops| - 1].Remove?
    requires Succeeds(ops, |ops| - 1) ==> ops[|ops| - 1].Update? && Given(ops[|ops| - 1], c).None?
    ensures LastToGive(ops, n, c)
  {
    forall m | 0 <= m < |ops| - 1 ensures Succeeds(ops[..|ops| - 1], m) <==> Succeeds(ops, m) {
      SucceedsInFront(ops, m);
    }
  }

  /** Every column of the row holds what the last successful operation to say something about it gave. */
  lemma {:induction false} ColumnIsAsLastGiven(prefix: string, ops: seq<Op>, c: Column) returns (n: int)
    requires Live(prefix, ops).row.Some?
    ensures LastToGive(ops, n, c) && Of(Live(prefix, ops).row.value, c) == Given(ops[n], c)
  {
    var front, op := ops[..|ops| - 1], ops[|ops| - 1];
    n := |front|;
    RowExists(prefix, front);
    OpGivesColumn(Live(prefix, front).row, op, c);
    if !(Succeeds(ops, n) && (op.Create? || Given(op, c).Some?)) {
      n := ColumnIsAsLastGiven(prefix, front, c);
      LastToGiveStays(ops, n, c);
    }
  }

  lemma LastToSayPublishedStays(ops: seq<Op>, n: int)
    requires ops != [] && LastToSayPublished(ops[..|ops| - 1], n) && !ops[|ops| - 1].Remove?
    requires Succeeds(ops, |ops| - 1) ==> SaysPublished(ops[|ops| - 1]).None?
    ensures LastToSayPublished(ops, n)
  {
    forall m | 0 <= m < |ops| - 1 ensures Succeeds(ops[..|ops| - 1], m) <==> Succeeds(ops, m) {
      SucceedsInFront(ops, m);
    }
  }

  /** The post is live or not as the last successful operation to say so said; a creation always does. */
  lemma {:induction false} PublishedIsAsLastSaid(prefix: string, ops: seq<Op>) returns (n: int)
    requires Live(prefix, ops).row.Some?
    ensures LastToSayPublished(ops, n) && Some(Live(prefix, ops).row.value.isPublished) == SaysPublished(ops[n])
  {
    var front := ops[..|ops| - 1];
    n := |front|;
    RowExists(prefix, front);
    if !(Succeeds(ops, n) && SaysPublished(ops[n]).Some?) {
      n := PublishedIsAsLastSaid(prefix, front);
      LastToSayPublishedStays(ops, n);
    }
  }

  ghost predicate RemovedAfter(ops: seq<Op>, n: int) {
    exists k :: n < k < |ops| && 0 <= k && ops[k].Remove?
  }

  lemma {:induction false} NoRowMeansRemoved(ops: seq<Op>, n: int)
    requires Succeeds(ops, n) && !Exists(ops)
    ensures RemovedAfter(ops, n)
  {
    var front := ops[..|ops| - 1];
    assert n < |front|;
    if !ops[|ops| - 1].Remove? {
      SucceedsInFront(ops, n);
      NoRowMeansRemoved(front, n);
      var k :| n < k < |front| && front[k].Remove?;
      assert ops[k].Remove?;
    }
  }

  lemma FirstToPublishStays(ops: seq<Op>, n: int)
    requires ops != [] && FirstToPublish(ops[..|ops| - 1], n) && !ops[|ops| - 1].Remove?
    ensures FirstToPublish(ops, n)
  {
    forall m | 0 <= m < |ops| - 1
      ensures Publishes(ops[..|ops| - 1], m) <==> Publishes(ops, m)
      ensures RemovedAfter(ops[..|ops| - 1], m) <==> RemovedAfter(ops, m)
    {
      PublishesInFront(ops, m);
    }
  }

  lemma PublishesInFront(ops: seq<Op>, n: int)
    requires 0 <= n < |ops| - 1 && !ops[|ops| - 1].Remove?
    ensures Publishes(ops[..|ops| - 1], n) <==> Publishes(ops, n)
    ensures RemovedAfter(ops[..|ops| - 1], n) <==> RemovedAfter(ops, n)
  {
    var front := ops[..|ops| - 1];
    SucceedsInFront(ops, n);
    if RemovedAfter(ops, n) {
      var k :| n < k < |ops| && ops[k].Remove?;
      assert front[k].Remove?;
    }
    if RemovedAfter(front, n) {
      var k :| n < k < |front| && front[k].Remove?;
      assert ops[k].Remove?;
    }
  }

  /** The publication date is the time of the operation that first set the post live; without one there is none. */
  lemma {:induction false} DateIsOfFirstPublication(prefix: string, ops: seq<Op>)
    requires Live(prefix, ops).row.Some?
    ensures var date := Live(prefix, ops).row.value.publishedAt;
            && (date.None? <==> forall n :: Publishes(ops, n) ==> RemovedAfter(ops, n))
            && (date.Some? ==> exists n :: FirstToPublish(ops, n) && ops[n].now == date.value)
  {
    var front, last := ops[..|ops| - 1], |ops| - 1;
    var before, date := Live(prefix, front).row, Live(prefix, ops).row.value.publishedAt;
    RowExists(prefix, front);
    forall n | 0 <= n < last
      ensures Publishes(front, n) <==> Publishes(ops, n)
      ensures RemovedAfter(front, n) <==> RemovedAfter(ops, n)
      ensures before.None? && Publishes(ops, n) ==> RemovedAfter(ops, n)
    {
      PublishesInFront(ops, n);
      if before.None? && Publishes(front, n) {
        NoRowMeansRemoved(front, n);
      }
    }
    if before.Some? {
      DateIsOfFirstPublication(prefix, front);
    }
    if before.Some? && before.value.publishedAt.Some? {
      var n :| FirstToPublish(front, n) && front[n].now == before.value.publishedAt.value;
      FirstToPublishStays(ops, n);
    } else if Publishes(ops, last) {
      assert !RemovedAfter(ops, last);
      assert FirstToPublish(ops, last);
    }
  }

  // ---------- The service ----------

  datatype Result = Saved(post: Post) | NotFound | TransactionFailed

  /** Everything in a list of `deleteFiles` calls. */
  ghost function AllKeys(requests: seq<seq<string>>): set<string> {
    if requests == [] then {} else AllKeys(requests[..|requests| - 1]) + SetOf(requests[|requests| - 1])
  }

  lemma AllKeysOneMore(requests: seq<seq<string>>, keys: seq<string>)
    ensures AllKeys(requests + [keys]) == AllKeys(requests) + SetOf(keys)
  {
    assert (requests + [keys])[..|requests|] == requests;
  }

  class PostsService {
    const publicUrlPrefix: string
    var posts: map<PostId, Post>
    var deleteRequests: seq<seq<string>>

    constructor (publicUrlPrefix: string)
      ensures this.publicUrlPrefix == publicUrlPrefix && posts == map[] && deleteRequests == []
    {
      this.publicUrlPrefix, posts, deleteRequests := publicUrlPrefix, map[], [];
    }

    function Row(id: PostId): Option<Post>
      reads this
    {
      if id in posts then Some(posts[id]) else None
    }

    /** An empty list is never sent to the storage; a storage error would only be logged. */
    method DeleteMediaKeys(keys: seq<string>)
      modifies this`deleteRequests
      ensures deleteRequests == (if keys == [] then old(deleteRequests) else old(deleteRequests) + [keys])
      ensures AllKeys(deleteRequests) == AllKeys(old(deleteRequests)) + SetOf(keys)
    {
      if keys == [] {
        return;
      }
      AllKeysOneMore(deleteRequests, keys);
      deleteRequests := deleteRequests + [keys];
    }

    /** Passes on what the old row referenced and the new one does not. */
    method DeleteDroppedMedia(existing: Post, updated: Post)
      modifies this`deleteRequests
      ensures var dropped := MediaKeys(publicUrlPrefix, existing) - MediaKeys(publicUrlPrefix, updated);
              && AllKeys(deleteRequests) == AllKeys(old(deleteRequests)) + dropped
              && (dropped == {} ==> deleteRequests == old(deleteRequests))
    {
      var kept := CollectMediaKeys(publicUrlPrefix, updated);
      var before := CollectMediaKeys(publicUrlPrefix, existing);
      var removed := Dropped(before, kept);
      assert SetOf(removed) == SetOf(before) - SetOf(kept);
      assert removed != [] ==> removed[0] in SetOf(removed);
      DeleteMediaKeys(removed);
    }

    method Create(id: PostId, content: string, rest: Patch, now: nat, fails: bool) returns (r: Result)
      requires id !in posts
      modifies this`posts
      ensures Row(id) == RowAfter(None, Op.Create(content, rest, now, fails))
      ensures posts - {id} == old(posts)
      ensures r == (if fails then TransactionFailed else Saved(posts[id]))
    {
      if fails {
        return TransactionFailed;
      }
      var publishedAt := if rest.isPublished == Some(true) then Some(now) else None;
      var p := Post(content, rest.contentEn, rest.contentEs, rest.coverUrl, rest.coverUrlEn, rest.coverUrlEs,
                    rest.isPublished == Some(true), publishedAt);
      posts := posts[id := p];
      return Saved(p);
    }

    method Update(id: PostId, patch: Patch, now: nat, fails: bool) returns (r: Result)
      modifies this
      ensures Row(id) == RowAfter(old(Row(id)), Op.Update(patch, now, fails))
      ensures posts - {id} == old(posts) - {id}
      ensures AllKeys(deleteRequests)
                == AllKeys(old(deleteRequests)) + PassedBy(publicUrlPrefix, old(Row(id)), Op.Update(patch, now, fails))
      ensures PassedBy(publicUrlPrefix, old(Row(id)), Op.Update(patch, now, fails)) == {} ==>
                deleteRequests == old(deleteRequests)
      ensures r == (if old(Row(id)).None? then NotFound else if fails then TransactionFailed else Saved(Row(id).value))
    {
      if id !in posts {
        return NotFound;
      }
      var existing := posts[id];
      var stamp := existing.publishedAt.None? && patch.isPublished == Some(true);
      if fails {
        return TransactionFailed;
      }
      var updated := Merged(existing, patch);
      if stamp {
        updated := updated.(publishedAt := Some(now));
      }
      posts := posts[id := updated];

      DeleteDroppedMedia(existing, updated);
      return Saved(updated);
    }

    method Remove(id: PostId) returns (r: Result)
      modifies this
      ensures Row(id) == None
      ensures posts == old(posts) - {id}
      ensures AllKeys(deleteRequests)
                == AllKeys(old(deleteRequests)) + PassedBy(publicUrlPrefix, old(Row(id)), Op.Remove)
      ensures r == (if old(Row(id)).None? then NotFound else Saved(old(Row(id)).value))
    {
      if id !in posts {
        return NotFound;
      }
      var deleted := posts[id];
      posts := posts - {id};
      var keys := CollectMediaKeys(publicUrlPrefix, deleted);
      DeleteMediaKeys(keys);
      return Saved(deleted);
    }
  }
}
