/** The texts the service derives from its values: cursors, cache keys and entity tags. */
module Keys {
  import opened Finite
  import opened Text
  import opened Encoding
  import opened LikesStore
  import opened Leaderboard

  // ----- The alphabets of content types and identifiers -----

  predicate IsLower(c: char) { 'a' <= c <= 'z' }

  predicate IsTypeChar(c: char) { IsLower(c) || IsDigit(c) || c == '_' }

  predicate IsContentType(s: string) {
    s != [] && IsLower(s[0]) && forall i | 0 <= i < |s| :: IsTypeChar(s[i])
  }

  /** The hyphenated text of a UUID uses only these characters. */
  predicate IsIdChar(c: char) { IsDigit(c) || 'a' <= c <= 'f' || c == '-' }

  predicate IsId(s: string) { forall i | 0 <= i < |s| :: IsIdChar(s[i]) }

  /** Unicode White_Space, what `trim` removes. */
  predicate IsWhite(c: char) {
    var n := c as int;
    || 9 <= n <= 13 || n == 32 || n == 0x85 || n == 0xA0 || n == 0x1680 || 0x2000 <= n <= 0x200A
    || n == 0x2028 || n == 0x2029 || n == 0x202F || n == 0x205F || n == 0x3000
  }

  function TrimStart(s: string): string { if s != [] && IsWhite(s[0]) then TrimStart(s[1..]) else s }

  function TrimEnd(s: string): string {
    if s != [] && IsWhite(s[|s| - 1]) then TrimEnd(s[..|s| - 1]) else s
  }

  function Trim(s: string): string { TrimEnd(TrimStart(s)) }

  function LowerAscii(s: string): (t: string)
    ensures |t| == |s|
  {
    if s == [] then [] else [if 'A' <= s[0] <= 'Z' then (s[0] as int + 32) as char else s[0]] + LowerAscii(s[1..])
  }

  /** `ContentType::from_str`. */
  function ParseContentType(value: string): Option<string> {
    var normalized := LowerAscii(Trim(value));
    if normalized == [] || !IsLower(normalized[0]) || (exists i | 1 <= i < |normalized| :: !IsTypeChar(normalized[i]))
    then None else Some(normalized)
  }

  lemma {:induction false} LowerIsItself(s: string)
    requires forall i | 0 <= i < |s| :: IsTypeChar(s[i])
    ensures LowerAscii(s) == s
  {
    if s != [] { LowerIsItself(s[1..]); }
  }

  /** Unicode's White_Space characters, one by one. */
  ghost const WHITE: set<int> := {9, 10, 11, 12, 13, 32, 0x85, 0xA0, 0x1680, 0x2000, 0x2001, 0x2002, 0x2003, 0x2004,
                                  0x2005, 0x2006, 0x2007, 0x2008, 0x2009, 0x200A, 0x2028, 0x2029, 0x202F, 0x205F,
                                  0x3000}

  /** What trimming leaves: the text between the first and the last character that is not white. */
  lemma {:induction false} TrimEndIs(s: string) returns (j: nat)
    ensures j <= |s| && TrimEnd(s) == s[..j] && (j > 0 ==> s[j - 1] as int !in WHITE)
    ensures forall k | j <= k < |s| :: s[k] as int in WHITE
  {
    j := |s|;
    if s != [] && IsWhite(s[|s| - 1]) {
      j := TrimEndIs(s[..|s| - 1]);
      assert s[..|s| - 1][..j] == s[..j];
    }
  }

  lemma {:induction false} TrimStartIs(s: string) returns (i: nat)
    ensures i <= |s| && TrimStart(s) == s[i..] && (i < |s| ==> s[i] as int !in WHITE)
    ensures forall k | 0 <= k < i :: s[k] as int in WHITE
  {
    i := 0;
    if s != [] && IsWhite(s[0]) {
      var rest := TrimStartIs(s[1..]);
      i := rest + 1;
      assert forall k | 1 <= k < i :: s[k] == s[1..][k - 1];
    }
  }

  lemma TrimIs(s: string) returns (i: nat, j: nat)
    ensures i <= j <= |s| && Trim(s) == s[i..j] && (i < j ==> s[i] as int !in WHITE && s[j - 1] as int !in WHITE)
    ensures forall k | 0 <= k < i || j <= k < |s| :: s[k] as int in WHITE
  {
    i := TrimStartIs(s);
    var rest := TrimEndIs(s[i..]);
    j := i + rest;
    assert s[i..][..rest] == s[i..j];
    assert forall k | j <= k < |s| :: s[k] == s[i..][k - i];
    assert i < |s| ==> s[i] == s[i..][0];
  }

  /** A character and its ASCII lower case. */
  predicate LowersTo(c: char, d: char) { if 'A' <= c <= 'Z' then d as int == c as int + 32 else d == c }

  lemma {:induction false} LowerAsciiIs(s: string, k: nat)
    requires k < |s|
    ensures LowersTo(s[k], LowerAscii(s)[k])
  {
    if k > 0 { LowerAsciiIs(s[1..], k - 1); }
  }

  /** A content type is accepted exactly when what trimming leaves is a letter followed by letters, digits and
      underscores; it is then that text in lower case. */
  lemma ParsedTypeIs(value: string) returns (i: nat, j: nat)
    ensures i <= j <= |value| && (i < j ==> value[i] as int !in WHITE && value[j - 1] as int !in WHITE)
    ensures forall k | 0 <= k < i || j <= k < |value| :: value[k] as int in WHITE
    ensures ParseContentType(value).Some? <==>
              && i < j && ('a' <= value[i] <= 'z' || 'A' <= value[i] <= 'Z')
              && forall k | i <= k < j ::
                'a' <= value[k] <= 'z' || 'A' <= value[k] <= 'Z' || '0' <= value[k] <= '9' || value[k] == '_'
    ensures ParseContentType(value).Some? ==>
              && |ParseContentType(value).value| == j - i
              && forall k | i <= k < j :: LowersTo(value[k], ParseContentType(value).value[k - i])
  {
    i, j := TrimIs(value);
    var lower := LowerAscii(value[i..j]);
    forall k | i <= k < j ensures LowersTo(value[k], lower[k - i]) {
      LowerAsciiIs(value[i..j], k - i);
    }
    if i < j {
      assert LowersTo(value[i], lower[0]);
      assert forall k | 1 <= k < |lower| :: LowersTo(value[i + k], lower[k]);
    }
  }

  /** Accepted content types are exactly the normal forms, and parsing a normal form returns it. */
  lemma ContentTypesAreNormal(value: string)
    ensures ParseContentType(value).Some? ==> IsContentType(ParseContentType(value).value)
    ensures IsContentType(value) <==> ParseContentType(value) == Some(value)
  {
    if IsContentType(value) {
      assert IsTypeChar(value[0]) && IsTypeChar(value[|value| - 1]);
      assert TrimStart(value) == value && TrimEnd(value) == value;
      LowerIsItself(value);
    }
  }

  // ----- The pagination cursor -----

  datatype CursorText = CursorText(likedAt: string, contentId: string)

  function FormatCursor(row: CursorText): string { row.likedAt + ['|'] + row.contentId }

  function EncodeCursor(row: CursorText): string { EncodeBase64(EncodeUtf8(FormatCursor(row))) }

  /** The fields around the first '|', when both are there. */
  function SplitCursor(text: string): Option<CursorText> {
    if '|' !in text then None
    else
      var i := FirstIndex(text, '|');
      IndexFound(text, '|');
      if i == 0 || i + 1 == |text| then None else Some(CursorText(text[..i], text[i + 1..]))
  }

  /** None is INVALID_CURSOR. */
  function DecodeCursor(value: string): Option<CursorText> {
    var bytes := DecodeBase64(value);
    if bytes.None? then None
    else
      var text := DecodeUtf8(bytes.value);
      if text.None? then None else SplitCursor(text.value)
  }

  lemma {:induction false} IndexFound<T>(s: seq<T>, x: T)
    requires x in s
    ensures var i := FirstIndex(s, x); i < |s| && s[i] == x && x !in s[..i]
  {
    if s[0] != x {
      IndexFound(s[1..], x);
      var i := FirstIndex(s[1..], x);
      assert s[..i + 1] == [s[0]] + s[1..][..i];
    }
  }

  lemma SplitRoundTrip(row: CursorText)
    ensures SplitCursor(FormatCursor(row)) == Some(row)
       <==> row.likedAt != [] && '|' !in row.likedAt && row.contentId != []
  {
    var text := FormatCursor(row);
    IndexFound(text, '|');
    if '|' !in row.likedAt {
      FirstFieldEnds(row.likedAt, '|', row.contentId);
      assert text[..|row.likedAt|] == row.likedAt && text[|row.likedAt| + 1..] == row.contentId;
    }
  }

  /** A row's cursor decodes to the row exactly when liked_at is non-empty without '|' and content_id is
      non-empty. */
  lemma CursorRoundTrip(row: CursorText)
    ensures DecodeCursor(EncodeCursor(row)) == Some(row)
       <==> row.likedAt != [] && '|' !in row.likedAt && row.contentId != []
  {
    Utf8RoundTrip(FormatCursor(row));
    Base64RoundTrip(EncodeUtf8(FormatCursor(row)));
    SplitRoundTrip(row);
  }

  lemma SplitCanonical(text: string)
    requires SplitCursor(text).Some?
    ensures FormatCursor(SplitCursor(text).value) == text
  {
    IndexFound(text, '|');
    var i := FirstIndex(text, '|');
    assert text == text[..i] + ['|'] + text[i + 1..];
  }

  /** A cursor the service accepts is the one it would issue for what it decodes to. */
  lemma CursorCanonical(value: string)
    requires DecodeCursor(value).Some?
    ensures EncodeCursor(DecodeCursor(value).value) == value
  {
    var bytes := DecodeBase64(value).value;
    Base64Canonical(value);
    Utf8Canonical(bytes);
    SplitCanonical(DecodeUtf8(bytes).value);
  }

  predicate IsTimestampChar(c: char) { IsDigit(c) || c == '-' || c == ':' || c == '.' || c == 'T' || c == 'Z' }

  /** Issued cursors need no escaping in a query string, but for the padding. */
  lemma CursorIsQuerySafe(row: CursorText)
    requires (forall i | 0 <= i < |row.likedAt| :: IsTimestampChar(row.likedAt[i])) && IsId(row.contentId)
    ensures !NeedsPercentEncoding(EncodeCursor(row))
  {
    var text := row.likedAt + ['|'] + row.contentId;
    forall i | 0 <= i < |text| ensures (text[i] as int) < 0x80 && text[i] as int % 64 < 62 {
      if |row.likedAt| < i { assert text[i] == row.contentId[i - |row.likedAt| - 1]; }
    }
    AsciiIsItself(text);
    AsciiBase64Safety(EncodeUtf8(text));
  }

  // ----- Cache keys -----

  datatype CacheKey =
    | CountKey(content: Content)
    | StatusKey(user: string, content: Content)
    | TopKey(window: TopLikesWindow, contentType: Option<string>, limit: nat)

  function WindowName(w: TopLikesWindow): string {
    match w
    case Last24Hours => "24h"
    case Last7Days => "7d"
    case Last30Days => "30d"
    case All => "all"
  }

  function TypeOrAll(contentType: Option<string>): string {
    if contentType.None? then "all" else contentType.value
  }

  function ContentText(c: Content): string { c.contentType + [':'] + c.contentId }

  function KeyText(k: CacheKey): string {
    match k
    case CountKey(c) => "likes:count:" + ContentText(c)
    case StatusKey(user, c) => "likes:status:" + (user + [':'] + ContentText(c))
    case TopKey(w, contentType, limit) =>
      "likes:top:" + (WindowName(w) + [':'] + (TypeOrAll(contentType) + [':'] + Decimal(limit)))
  }

  predicate IsContent(c: Content) { IsContentType(c.contentType) && IsId(c.contentId) }

  predicate IsKey(k: CacheKey) {
    match k
    case CountKey(c) => IsContent(c)
    case StatusKey(user, c) => IsId(user) && IsContent(c)
    case TopKey(_, contentType, _) => contentType.None? || IsContentType(contentType.value)
  }

  /** No filter and the filter "all" are not told apart. */
  function Merged(contentType: Option<string>): Option<string> {
    if contentType == Some("all") then None else contentType
  }

  predicate SameKey(a: CacheKey, b: CacheKey) {
    if a.TopKey? && b.TopKey? then
      a.window == b.window && a.limit == b.limit && Merged(a.contentType) == Merged(b.contentType)
    else a == b
  }

  lemma ContentTextInjective(c: Content, d: Content)
    requires IsContent(c) && IsContent(d) && ContentText(c) == ContentText(d)
    ensures c == d
  {
    FirstFieldInjective(c.contentType, ':', c.contentId, d.contentType, d.contentId);
  }

  lemma TypeOrAllMerged(a: Option<string>, b: Option<string>)
    ensures TypeOrAll(a) == TypeOrAll(b) <==> Merged(a) == Merged(b)
  {
  }

  lemma WindowNameInjective(v: TopLikesWindow, w: TopLikesWindow)
    requires WindowName(v) == WindowName(w)
    ensures v == w
  {
    assert |WindowName(v)| == |WindowName(w)| && WindowName(v)[0] == WindowName(w)[0];
  }

  lemma KindsDiffer(a: CacheKey, b: CacheKey)
    requires KeyText(a) == KeyText(b)
    ensures a.CountKey? == b.CountKey? && a.StatusKey? == b.StatusKey?
  {
    assert KeyText(a)[6] == if a.CountKey? then 'c' else if a.StatusKey? then 's' else 't';
    assert KeyText(b)[6] == if b.CountKey? then 'c' else if b.StatusKey? then 's' else 't';
  }

  lemma TopKeysInjective(a: CacheKey, b: CacheKey)
    requires a.TopKey? && b.TopKey? && IsKey(a) && IsKey(b) && KeyText(a) == KeyText(b)
    ensures SameKey(a, b)
  {
    var x := TypeOrAll(a.contentType) + [':'] + Decimal(a.limit);
    var y := TypeOrAll(b.contentType) + [':'] + Decimal(b.limit);
    SharedPrefix("likes:top:", WindowName(a.window) + [':'] + x, WindowName(b.window) + [':'] + y);
    assert forall w :: ':' !in WindowName(w);
    FirstFieldInjective(WindowName(a.window), ':', x, WindowName(b.window), y);
    WindowNameInjective(a.window, b.window);
    FirstFieldInjective(TypeOrAll(a.contentType), ':', Decimal(a.limit), TypeOrAll(b.contentType), Decimal(b.limit));
    DecimalInjective(a.limit, b.limit);
    TypeOrAllMerged(a.contentType, b.contentType);
  }

  /** Within and across the three kinds, keys have equal texts exactly when they are the same key, up to
      "all" and no filter. */
  lemma CacheKeysAreInjective(a: CacheKey, b: CacheKey)
    requires IsKey(a) && IsKey(b)
    ensures KeyText(a) == KeyText(b) <==> SameKey(a, b)
  {
    if KeyText(a) == KeyText(b) {
      KindsDiffer(a, b);
      if a.CountKey? {
        SharedPrefix("likes:count:", ContentText(a.content), ContentText(b.content));
        ContentTextInjective(a.content, b.content);
      } else if a.StatusKey? {
        SharedPrefix("likes:status:", a.user + [':'] + ContentText(a.content), b.user + [':'] + ContentText(b.content));
        FirstFieldInjective(a.user, ':', ContentText(a.content), b.user, ContentText(b.content));
        ContentTextInjective(a.content, b.content);
      } else {
        TopKeysInjective(a, b);
      }
    }
    if a.TopKey? && b.TopKey? && SameKey(a, b) { TypeOrAllMerged(a.contentType, b.contentType); }
  }

  // ----- Entity tags -----

  function CountText(c: Content, count: int): string {
    c.contentType + [':'] + (c.contentId + [':'] + SignedDecimal(count))
  }

  function CountEtag(c: Content, count: int): string { "\"count:" + (CountText(c, count) + "\"") }

  datatype TopLikes = TopLikes(window: TopLikesWindow, contentType: Option<string>, items: seq<TopLikeRow>)

  function ItemsText(items: seq<TopLikeRow>): string {
    if items == [] then [] else ['|'] + (CountText(items[0].content, items[0].likeCount) + ItemsText(items[1..]))
  }

  function TopRest(r: TopLikes): string { TypeOrAll(r.contentType) + ItemsText(r.items) }

  function TopText(r: TopLikes): string {
    "top:" + (WindowName(r.window) + [':'] + TopRest(r))
  }

  function TopEtag(r: TopLikes): string { "\"" + (EncodeBase64(EncodeUtf8(TopText(r))) + "\"") }

  predicate IsTopLikes(r: TopLikes) {
    && (r.contentType.None? || IsContentType(r.contentType.value))
    && forall i | 0 <= i < |r.items| :: IsContent(r.items[i].content)
  }

  predicate SameTopLikes(r: TopLikes, s: TopLikes) {
    r.window == s.window && Merged(r.contentType) == Merged(s.contentType) && r.items == s.items
  }

  lemma CountTextChars(c: Content, count: int)
    requires IsContent(c)
    ensures forall i | 0 <= i < |CountText(c, count)| ::
              IsTypeChar(CountText(c, count)[i]) || CountText(c, count)[i] == '-' || CountText(c, count)[i] == ':'
  {
    var d := SignedDecimal(count);
    forall i | 0 <= i < |d| ensures IsDigit(d[i]) || d[i] == '-' {
      if count < 0 { assert i > 0 ==> d[i] in Decimal(-count); } else { assert d[i] in Decimal(count); }
    }
  }

  lemma CountTextInjective(c: Content, m: int, d: Content, n: int)
    requires IsContent(c) && IsContent(d) && CountText(c, m) == CountText(d, n)
    ensures c == d && m == n
  {
    var x, y := c.contentId + [':'] + SignedDecimal(m), d.contentId + [':'] + SignedDecimal(n);
    FirstFieldInjective(c.contentType, ':', x, d.contentType, y);
    FirstFieldInjective(c.contentId, ':', SignedDecimal(m), d.contentId, SignedDecimal(n));
    SignedDecimalInjective(m, n);
  }

  /** Equal count tags mean the same item and count. */
  lemma CountEtagInjective(c: Content, m: int, d: Content, n: int)
    requires IsContent(c) && IsContent(d)
    ensures CountEtag(c, m) == CountEtag(d, n) <==> c == d && m == n
  {
    if CountEtag(c, m) == CountEtag(d, n) {
      SharedPrefix("\"count:", CountText(c, m) + "\"", CountText(d, n) + "\"");
      SharedSuffix(CountText(c, m), CountText(d, n), "\"");
      CountTextInjective(c, m, d, n);
    }
  }

  lemma SharedSuffix<T>(x: seq<T>, y: seq<T>, p: seq<T>)
    requires x + p == y + p
    ensures x == y
  {
    assert x == (x + p)[..|x|] && y == (y + p)[..|y|];
  }

  predicate BarLed(s: string) { s == [] || s[0] == '|' }

  /** A text without bars ends where a bar-led tail begins. */
  lemma UpToBars(a: string, x: string, b: string, y: string)
    requires '|' !in a && '|' !in b && BarLed(x) && BarLed(y) && a + x == b + y
    ensures a == b && x == y
  {
    var x', y' := x + ['|'], y + ['|'];
    assert x' == ['|'] + x'[1..] && y' == ['|'] + y'[1..];
    assert a + ['|'] + x'[1..] == a + x + ['|'] && b + ['|'] + y'[1..] == b + y + ['|'];
    FirstFieldInjective(a, '|', x'[1..], b, y'[1..]);
    SharedSuffix(x, y, ['|']);
  }

  lemma CountTextHasNoBar(c: Content, count: int)
    requires IsContent(c)
    ensures '|' !in CountText(c, count)
  {
    CountTextChars(c, count);
  }

  lemma FirstItemInjective(a: seq<TopLikeRow>, b: seq<TopLikeRow>)
    requires a != [] && b != [] && IsContent(a[0].content) && IsContent(b[0].content) && ItemsText(a) == ItemsText(b)
    ensures a[0] == b[0] && ItemsText(a[1..]) == ItemsText(b[1..])
  {
    var x, y := CountText(a[0].content, a[0].likeCount), CountText(b[0].content, b[0].likeCount);
    SharedPrefix("|", x + ItemsText(a[1..]), y + ItemsText(b[1..]));
    CountTextHasNoBar(a[0].content, a[0].likeCount);
    CountTextHasNoBar(b[0].content, b[0].likeCount);
    UpToBars(x, ItemsText(a[1..]), y, ItemsText(b[1..]));
    CountTextInjective(a[0].content, a[0].likeCount, b[0].content, b[0].likeCount);
  }

  lemma {:induction false} ItemsTextInjective(a: seq<TopLikeRow>, b: seq<TopLikeRow>)
    requires forall i | 0 <= i < |a| :: IsContent(a[i].content)
    requires forall i | 0 <= i < |b| :: IsContent(b[i].content)
    requires ItemsText(a) == ItemsText(b)
    ensures a == b
  {
    if a != [] && b != [] {
      FirstItemInjective(a, b);
      ItemsTextInjective(a[1..], b[1..]);
      assert a == [a[0]] + a[1..] && b == [b[0]] + b[1..];
    }
  }

  lemma TopRestInjective(r: TopLikes, s: TopLikes)
    requires IsTopLikes(r) && IsTopLikes(s) && TopRest(r) == TopRest(s)
    ensures Merged(r.contentType) == Merged(s.contentType) && r.items == s.items
  {
    UpToBars(TypeOrAll(r.contentType), ItemsText(r.items), TypeOrAll(s.contentType), ItemsText(s.items));
    TypeOrAllMerged(r.contentType, s.contentType);
    ItemsTextInjective(r.items, s.items);
  }

  lemma WindowNameHasNoColon(w: TopLikesWindow)
    ensures ':' !in WindowName(w)
  {
  }

  lemma TopTextInjective(r: TopLikes, s: TopLikes)
    requires IsTopLikes(r) && IsTopLikes(s) && TopText(r) == TopText(s)
    ensures SameTopLikes(r, s)
  {
    SharedPrefix("top:", WindowName(r.window) + [':'] + TopRest(r), WindowName(s.window) + [':'] + TopRest(s));
    WindowNameHasNoColon(r.window);
    WindowNameHasNoColon(s.window);
    FirstFieldInjective(WindowName(r.window), ':', TopRest(r), WindowName(s.window), TopRest(s));
    WindowNameInjective(r.window, s.window);
    TopRestInjective(r, s);
  }

  /** Equal ranking tags mean equal responses, for any number of items, up to "all" and no filter. */
  lemma TopEtagInjective(r: TopLikes, s: TopLikes)
    requires IsTopLikes(r) && IsTopLikes(s)
    ensures TopEtag(r) == TopEtag(s)
       <==> SameTopLikes(r, s)
  {
    var x, y := EncodeUtf8(TopText(r)), EncodeUtf8(TopText(s));
    TypeOrAllMerged(r.contentType, s.contentType);
    if TopEtag(r) == TopEtag(s) {
      SharedPrefix("\"", EncodeBase64(x) + "\"", EncodeBase64(y) + "\"");
      SharedSuffix(EncodeBase64(x), EncodeBase64(y), "\"");
      Base64RoundTrip(x);
      Base64RoundTrip(y);
      Utf8RoundTrip(TopText(r));
      Utf8RoundTrip(TopText(s));
      TopTextInjective(r, s);
    }
  }

  // ----- If-None-Match -----

  function Split(s: string, sep: char): seq<string>
    decreases |s|
  {
    if sep !in s then [s]
    else
      var i := FirstIndex(s, sep);
      IndexFound(s, sep);
      [s[..i]] + Split(s[i + 1..], sep)
  }

  predicate IfNoneMatchMatches(header: Option<string>, etag: string) {
    header.Some? && var tags := HeaderTags(Split(header.value, ',')); "*" in tags || etag in tags
  }

  /** The header a client builds from the tags it holds. */
  function Listed(tags: seq<string>): string {
    if tags == [] then [] else if |tags| == 1 then tags[0] else tags[0] + [','] + ([' '] + Listed(tags[1..]))
  }

  /** A tag with no comma that trimming leaves alone, with or without a space before it. */
  predicate IsTag(tag: string) {
    tag != [] && ',' !in tag && !IsWhite(tag[0]) && !IsWhite(tag[|tag| - 1])
  }

  lemma TrimTag(tag: string)
    requires IsTag(tag)
    ensures Trim(tag) == tag && Trim([' '] + tag) == tag
  {
    assert ([' '] + tag)[1..] == tag;
  }

  /** The tags of a header: its parts, trimmed. */
  function HeaderTags(parts: seq<string>): seq<string> { seq(|parts|, k requires 0 <= k < |parts| => Trim(parts[k])) }

  lemma SplitHead(first: string, sep: char, rest: string)
    requires sep !in first
    ensures Split(first + [sep] + rest, sep) == [first] + Split(rest, sep)
  {
    var s := first + [sep] + rest;
    FirstFieldEnds(first, sep, rest);
    assert s[|first|] == sep;
    assert s[..|first|] == first && s[|first| + 1..] == rest;
  }

  /** The first tag of a header, and what splitting makes of it. */
  lemma ListedHead(tags: seq<string>, space: string)
    requires |tags| > 1 && IsTag(tags[0]) && (space == [] || space == [' '])
    ensures Split(space + Listed(tags), ',') == [space + tags[0]] + Split([' '] + Listed(tags[1..]), ',')
  {
    var first, rest := space + tags[0], [' '] + Listed(tags[1..]);
    assert space + Listed(tags) == first + [','] + rest;
    SplitHead(first, ',', rest);
  }

  lemma TrimSpaced(tag: string, space: string)
    requires IsTag(tag) && (space == [] || space == [' '])
    ensures Trim(space + tag) == tag && ',' !in space + tag
  {
    TrimTag(tag);
    assert [] + tag == tag;
  }

  lemma {:induction false} SplitListed(tags: seq<string>, space: string)
    requires tags != [] && (space == [] || space == [' ']) && forall k | 0 <= k < |tags| :: IsTag(tags[k])
    ensures HeaderTags(Split(space + Listed(tags), ',')) == tags
    decreases |tags|
  {
    TrimSpaced(tags[0], space);
    if |tags| > 1 {
      ListedHead(tags, space);
      SplitListed(tags[1..], [' ']);
      HeaderTagsAfter(space + tags[0], Split([' '] + Listed(tags[1..]), ','));
      assert tags == [tags[0]] + tags[1..];
    } else {
      assert Split(space + Listed(tags), ',') == [space + tags[0]];
    }
  }

  lemma HeaderTagsAfter(first: string, rest: seq<string>)
    ensures HeaderTags([first] + rest) == [Trim(first)] + HeaderTags(rest)
  {
  }

  /** A client that lists its tags is told 304 exactly when the current tag, or "*", is among them. */
  lemma {:induction false} NotModifiedIffListed(tags: seq<string>, etag: string)
    requires tags != [] && forall k | 0 <= k < |tags| :: IsTag(tags[k])
    ensures IfNoneMatchMatches(Some(Listed(tags)), etag) <==> etag in tags || "*" in tags
    ensures !IfNoneMatchMatches(None, etag)
  {
    SplitListed(tags, []);
    assert [] + Listed(tags) == Listed(tags);
  }

  lemma CountEtagIsTag(c: Content, count: int)
    requires IsContent(c)
    ensures IsTag(CountEtag(c, count)) && CountEtag(c, count) != "*"
  {
    CountTextChars(c, count);
    var t, e := CountText(c, count), CountEtag(c, count);
    forall i | 0 <= i < |e| ensures e[i] != ',' {
      if 7 <= i < 7 + |t| { assert e[i] == t[i - 7]; }
    }
  }

  /** A client holding bodies of known counts is answered 304 exactly when one of them is current. */
  lemma {:induction false} CountNotModifiedIffHeld(held: seq<(Content, int)>, tags: seq<string>, c: Content, count: int)
    requires held != [] && |tags| == |held| && IsContent(c)
    requires forall k | 0 <= k < |held| :: IsContent(held[k].0) && tags[k] == CountEtag(held[k].0, held[k].1)
    ensures IfNoneMatchMatches(Some(Listed(tags)), CountEtag(c, count)) <==> (c, count) in held
  {
    forall k | 0 <= k < |tags|
      ensures IsTag(tags[k]) && tags[k] != "*" && (tags[k] == CountEtag(c, count) <==> held[k] == (c, count))
    {
      CountEtagIsTag(held[k].0, held[k].1);
      CountEtagInjective(held[k].0, held[k].1, c, count);
    }
    NotModifiedIffListed(tags, CountEtag(c, count));
    if (c, count) in held {
      var k :| 0 <= k < |held| && held[k] == (c, count);
      assert tags[k] in tags;
    }
  }

  lemma TopEtagIsTag(r: TopLikes)
    ensures IsTag(TopEtag(r)) && TopEtag(r) != "*"
  {
    var bytes, e := EncodeUtf8(TopText(r)), TopEtag(r);
    Base64Alphabet(bytes);
    forall i | 0 <= i < |e| ensures e[i] != ',' {
      if 0 < i < |e| - 1 { assert e[i] == EncodeBase64(bytes)[i - 1]; }
    }
  }

  /** A client holding earlier rankings is answered 304 exactly when one of them is the current response,
      up to "all" and no filter. */
  lemma {:induction false} TopNotModifiedIffHeld(held: seq<TopLikes>, tags: seq<string>, r: TopLikes)
    requires held != [] && |tags| == |held| && IsTopLikes(r)
    requires forall k | 0 <= k < |held| :: IsTopLikes(held[k]) && tags[k] == TopEtag(held[k])
    ensures IfNoneMatchMatches(Some(Listed(tags)), TopEtag(r))
       <==> exists k | 0 <= k < |held| :: SameTopLikes(held[k], r)
  {
    forall k | 0 <= k < |tags|
      ensures IsTag(tags[k]) && tags[k] != "*" && (tags[k] == TopEtag(r) <==> SameTopLikes(held[k], r))
    {
      TopEtagIsTag(held[k]);
      TopEtagInjective(held[k], r);
    }
    NotModifiedIffListed(tags, TopEtag(r));
    if k :| 0 <= k < |held| && SameTopLikes(held[k], r) { assert tags[k] in tags; }
  }
}
