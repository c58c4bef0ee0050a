/** What the cache keys and entity tags say: the fields they split into. */
module Formats {
  import opened Finite
  import opened Text
  import opened Encoding
  import opened LikesStore
  import opened Leaderboard
  import opened Keys

  /** A text of two fields, and of three, from the front. */
  lemma SplitTwo(a: string, sep: char, b: string)
    requires sep !in a && sep !in b
    ensures Split(a + [sep] + b, sep) == [a, b]
  {
    SplitHead(a, sep, b);
    assert [a] + [b] == [a, b];
  }

  lemma SplitThree(a: string, sep: char, b: string, c: string)
    requires sep !in a && sep !in b && sep !in c
    ensures Split(a + [sep] + (b + [sep] + c), sep) == [a, b, c]
  {
    SplitHead(a, sep, b + [sep] + c);
    SplitTwo(b, sep, c);
    assert [a] + [b, c] == [a, b, c];
  }

  lemma SplitTail(a: string, sep: char, rest: string, fields: seq<string>)
    requires sep !in a && Split(rest, sep) == fields
    ensures Split(a + [sep] + rest, sep) == [a] + fields
  {
    SplitHead(a, sep, rest);
  }

  lemma NumbersHaveNoColon(n: int)
    ensures ':' !in SignedDecimal(n)
  {
    var s := SignedDecimal(n);
    forall i | 0 <= i < |s| ensures s[i] != ':' {
      if n >= 0 { assert s[i] in Decimal(n); } else { assert i > 0 ==> s[i] in Decimal(-n); }
    }
  }

  /** The kind of a key, and its fields in order. */
  function KindOf(k: CacheKey): string {
    if k.CountKey? then "count" else if k.StatusKey? then "status" else "top"
  }

  function FieldsOf(k: CacheKey): seq<string> {
    match k
    case CountKey(c) => [c.contentType, c.contentId]
    case StatusKey(user, c) => [user, c.contentType, c.contentId]
    case TopKey(w, contentType, limit) => [PeriodOf(w), if contentType.Some? then contentType.value else "all",
                                           Decimal(limit)]
  }

  function PeriodOf(w: TopLikesWindow): string {
    match w case Last24Hours => "24h" case Last7Days => "7d" case Last30Days => "30d" case All => "all"
  }

  function FieldsText(k: CacheKey): string {
    match k
    case CountKey(c) => c.contentType + [':'] + c.contentId
    case StatusKey(user, c) => user + [':'] + (c.contentType + [':'] + c.contentId)
    case TopKey(w, contentType, limit) => WindowName(w) + [':'] + (TypeOrAll(contentType) + [':'] + Decimal(limit))
  }

  lemma FieldsTextSplits(k: CacheKey)
    requires IsKey(k)
    ensures Split(FieldsText(k), ':') == FieldsOf(k)
  {
    match k
    case CountKey(c) => SplitTwo(c.contentType, ':', c.contentId);
    case StatusKey(user, c) => SplitThree(user, ':', c.contentType, c.contentId);
    case TopKey(w, contentType, limit) =>
      WindowNameHasNoColon(w);
      NumbersHaveNoColon(limit);
      SplitThree(WindowName(w), ':', TypeOrAll(contentType), Decimal(limit));
  }

  lemma Regroup(head: string, kind: string, text: string)
    ensures head + [':'] + kind + [':'] + text == head + ([':'] + (kind + ([':'] + text)))
  {
  }

  lemma KeyTextParts(k: CacheKey)
    ensures KeyText(k) == "likes" + ([':'] + (KindOf(k) + ([':'] + FieldsText(k))))
  {
    Regroup("likes", KindOf(k), FieldsText(k));
    match k
    case CountKey(_) => assert "likes:count:" == "likes" + [':'] + "count" + [':'];
    case StatusKey(_, _) => assert "likes:status:" == "likes" + [':'] + "status" + [':'];
    case TopKey(_, _, _) => assert "likes:top:" == "likes" + [':'] + "top" + [':'];
  }

  lemma SplitPrefixed(head: string, kind: string, rest: string, fields: seq<string>)
    requires ':' !in head && ':' !in kind && Split(rest, ':') == fields
    ensures Split(head + ([':'] + (kind + ([':'] + rest))), ':') == [head, kind] + fields
  {
    assert kind + ([':'] + rest) == kind + [':'] + rest;
    SplitHead(kind, ':', rest);
    var tail := kind + [':'] + rest;
    assert head + ([':'] + tail) == head + [':'] + tail;
    SplitHead(head, ':', tail);
  }

  /** Splitting a key's text at the colons gives "likes", its kind and its fields. */
  lemma KeyFields(k: CacheKey)
    requires IsKey(k)
    ensures Split(KeyText(k), ':') == ["likes", KindOf(k)] + FieldsOf(k)
  {
    FieldsTextSplits(k);
    KeyTextParts(k);
    SplitPrefixed("likes", KindOf(k), FieldsText(k), FieldsOf(k));
  }

  lemma CountFields(c: Content, count: int)
    requires IsContent(c)
    ensures Split(CountText(c, count), ':') == [c.contentType, c.contentId, SignedDecimal(count)]
  {
    NumbersHaveNoColon(count);
    SplitThree(c.contentType, ':', c.contentId, SignedDecimal(count));
  }

  /** A text between double quotes. */
  predicate Quotes(tag: string, inner: string) { tag == ['"'] + inner + ['"'] }

  lemma Quoted(word: string, text: string)
    ensures ['"'] + word + [':'] + (text + ['"']) == ['"'] + (word + [':'] + text) + ['"']
  {
  }

  /** A count's tag quotes its type, id and count. */
  lemma CountEtagFields(c: Content, count: int) returns (inner: string)
    requires IsContent(c)
    ensures Quotes(CountEtag(c, count), inner)
    ensures Split(inner, ':') == ["count", c.contentType, c.contentId, SignedDecimal(count)]
  {
    var text, word := CountText(c, count), "count";
    inner := word + [':'] + text;
    CountFields(c, count);
    SplitTail(word, ':', text, [c.contentType, c.contentId, SignedDecimal(count)]);
    assert "\"count:" == ['"'] + word + [':'];
    Quoted(word, text);
  }

  lemma {:induction false} SplitItems(first: string, items: seq<TopLikeRow>)
    requires '|' !in first && forall i | 0 <= i < |items| :: IsContent(items[i].content)
    ensures |Split(first + ItemsText(items), '|')| == |items| + 1 && Split(first + ItemsText(items), '|')[0] == first
    ensures forall i | 0 <= i < |items| ::
              Split(first + ItemsText(items), '|')[i + 1] == CountText(items[i].content, items[i].likeCount)
    decreases |items|
  {
    if items == [] {
      assert first + ItemsText(items) == first;
    } else {
      var item, rest := CountText(items[0].content, items[0].likeCount), ItemsText(items[1..]);
      CountTextHasNoBar(items[0].content, items[0].likeCount);
      assert first + ItemsText(items) == first + ['|'] + (item + rest);
      SplitHead(first, '|', item + rest);
      SplitItems(item, items[1..]);
    }
  }

  /** The parts of a ranking's text between the bars: window and type, then each item's type, id and count. */
  ghost predicate AreRankingParts(parts: seq<string>, r: TopLikes) {
    && |parts| == |r.items| + 1
    && Split(parts[0], ':')
       == ["top", PeriodOf(r.window), if r.contentType.None? then "all" else r.contentType.value]
    && forall i | 0 <= i < |r.items| :: IsItemText(parts[i + 1], r.items[i])
  }

  ghost predicate IsItemText(text: string, row: TopLikeRow) {
    Split(text, ':') == [row.content.contentType, row.content.contentId, SignedDecimal(row.likeCount)]
  }

  lemma RegroupItems(word: string, window: string, contentType: string, items: string)
    ensures word + [':'] + (window + [':'] + (contentType + items))
         == word + [':'] + (window + [':'] + contentType) + items
  {
  }

  lemma HeadAndItems(word: string, r: TopLikes)
    requires word == ['t', 'o', 'p']
    ensures TopText(r) == word + [':'] + (WindowName(r.window) + [':'] + TypeOrAll(r.contentType)) + ItemsText(r.items)
  {
    assert "top:" == word + [':'];
    RegroupItems(word, WindowName(r.window), TypeOrAll(r.contentType), ItemsText(r.items));
  }

  lemma ItemPartsAre(head: string, r: TopLikes, parts: seq<string>)
    requires IsTopLikes(r) && '|' !in head && parts == Split(head + ItemsText(r.items), '|')
    ensures |parts| == |r.items| + 1 && parts[0] == head
    ensures forall i | 0 <= i < |r.items| :: IsItemText(parts[i + 1], r.items[i])
  {
    SplitItems(head, r.items);
    forall i | 0 <= i < |r.items| ensures IsItemText(parts[i + 1], r.items[i]) {
      CountFields(r.items[i].content, r.items[i].likeCount);
    }
  }

  lemma HeadHasNoBar(word: string, r: TopLikes)
    requires IsTopLikes(r) && '|' !in word
    ensures '|' !in word + [':'] + (WindowName(r.window) + [':'] + TypeOrAll(r.contentType))
    ensures ':' !in TypeOrAll(r.contentType)
  {
  }

  lemma TopTextParts(word: string, r: TopLikes)
    requires IsTopLikes(r) && word == ['t', 'o', 'p']
    ensures AreRankingParts(Split(TopText(r), '|'), r)
  {
    var head := word + [':'] + (WindowName(r.window) + [':'] + TypeOrAll(r.contentType));
    HeadAndItems(word, r);
    WindowNameHasNoColon(r.window);
    HeadHasNoBar(word, r);
    ItemPartsAre(head, r, Split(TopText(r), '|'));
    SplitThree(word, ':', WindowName(r.window), TypeOrAll(r.contentType));
  }

  /** A ranking's tag quotes the base64 of a text of those parts. */
  lemma TopEtagFields(r: TopLikes) returns (inner: string, text: string)
    requires IsTopLikes(r)
    ensures Quotes(TopEtag(r), inner)
    ensures DecodeBase64(inner).Some? && DecodeUtf8(DecodeBase64(inner).value) == Some(text)
    ensures AreRankingParts(Split(text, '|'), r)
  {
    text := TopText(r);
    inner := EncodeBase64(EncodeUtf8(text));
    Base64RoundTrip(EncodeUtf8(text));
    Utf8RoundTrip(text);
    TopTextParts("top", r);
  }
}
