/**
 * Request-side helpers (src/lib/utils.ts): image validation by declared type, size and
 * magic bytes; the in-memory fixed-window rate limiter with its cleanup sweep; and the
 * HTML-escaping sanitizer with its inverse.
 */
module Utils {
  import opened Wrappers
  import opened JsText

  newtype byte = x: int | 0 <= x < 256

  const AllowedImageTypes: seq<string> := ["image/jpeg", "image/png", "image/webp"]

  /** 5 MiB. */
  const MaxImageSize: int := 5 * 1024 * 1024

  datatype ImageError = DisallowedType | TooLarge | InvalidSignature

  function ImageErrorMessage(e: ImageError): string {
    match e
    case DisallowedType => "Only JPEG, PNG, and WebP images are allowed"
    case TooLarge => "Image must be smaller than 5MB"
    case InvalidSignature => "Invalid image file"
  }

  /** `validateImageFile`: the type error for a type outside jpeg/png/webp, otherwise the
      size error for more than 5242880 bytes (exactly 5 MiB passes), otherwise none. */
  function ValidateImageFile(fileType: string, size: int): (r: Option<ImageError>)
    ensures r == Some(DisallowedType) <==> fileType !in AllowedImageTypes
    ensures r == Some(TooLarge) <==> fileType in AllowedImageTypes && size > 5242880
    ensures r == None <==> fileType in AllowedImageTypes && size <= 5242880
  {
    if fileType !in AllowedImageTypes then Some(DisallowedType)
    else if size > MaxImageSize then Some(TooLarge)
    else None
  }

  /** `buffer[k] === v` in JavaScript: false past the end, where the read gives `undefined`. */
  predicate ByteIs(buffer: seq<byte>, k: nat, v: byte) {
    k < |buffer| && buffer[k] == v
  }

  /** The magic-byte test as the source writes it: JPEG and PNG on the first four bytes
      (`subarray(0, 4)`), WebP on bytes 8 to 11 of a buffer longer than 11 bytes. */
  function HasImageSignature(buffer: seq<byte>): bool {
    var header := buffer[..if |buffer| < 4 then |buffer| else 4];
    var isJpeg := ByteIs(header, 0, 0xFF) && ByteIs(header, 1, 0xD8);
    var isPng := ByteIs(header, 0, 0x89) && ByteIs(header, 1, 0x50) && ByteIs(header, 2, 0x4E) && ByteIs(header, 3, 0x47);
    var isWebp := |buffer| > 11 && buffer[8] == 0x57 && buffer[9] == 0x45 && buffer[10] == 0x42 && buffer[11] == 0x50;
    isJpeg || isPng || isWebp
  }

  predicate StartsWith(buffer: seq<byte>, prefix: seq<byte>) {
    |prefix| <= |buffer| && buffer[..|prefix|] == prefix
  }

  /** The signature is accepted exactly for a JPEG prefix, a PNG prefix, or the WebP tag at
      offset 8; whatever type was declared plays no part, and a buffer shorter than two
      bytes is always refused. */
  lemma SignatureMeaning(buffer: seq<byte>)
    ensures HasImageSignature(buffer) <==>
      (|| StartsWith(buffer, [0xFF, 0xD8])
       || StartsWith(buffer, [0x89, 0x50, 0x4E, 0x47])
       || (|buffer| >= 12 && buffer[8..12] == [0x57, 0x45, 0x42, 0x50]))
    ensures |buffer| < 2 ==> !HasImageSignature(buffer)
  {
    if StartsWith(buffer, [0xFF, 0xD8]) {
      assert buffer[0] == buffer[..2][0] && buffer[1] == buffer[..2][1];
    }
    if StartsWith(buffer, [0x89, 0x50, 0x4E, 0x47]) {
      assert forall k :: 0 <= k < 4 ==> buffer[k] == buffer[..4][k];
    }
    if |buffer| >= 12 && buffer[8..12] == [0x57, 0x45, 0x42, 0x50] {
      assert forall k :: 8 <= k < 12 ==> buffer[k] == buffer[8..12][k - 8];
    }
  }

  /** `validateImageBuffer`: the first failing check in the order declared type, declared
      size (the `size` argument, not the buffer length), magic bytes. */
  function ValidateImageBuffer(buffer: seq<byte>, contentType: Option<string>, size: int): (r: Option<ImageError>)
    ensures r == Some(DisallowedType) <==> contentType.None? || contentType.value !in AllowedImageTypes
    ensures r == Some(TooLarge) <==>
      (contentType.Some? && contentType.value in AllowedImageTypes && size > 5242880)
    ensures r == Some(InvalidSignature) <==>
      (contentType.Some? && contentType.value in AllowedImageTypes && size <= 5242880
       && !HasImageSignature(buffer))
    ensures r == None <==> ValidateImageFile(contentType.GetOr(""), size).None? && HasImageSignature(buffer)
  {
    if contentType.None? || |contentType.value| == 0 || contentType.value !in AllowedImageTypes then
      Some(DisallowedType)
    else if size > MaxImageSize then Some(TooLarge)
    else if !HasImageSignature(buffer) then Some(InvalidSignature)
    else None
  }

  // ---------------------------------------------------------------------------------
  // Rate limiter

  datatype RateEntry = RateEntry(count: int, resetAt: int)

  type RateStore = map<string, RateEntry>

  /** One `checkRateLimit` call at time `now`: whether it is allowed, and the store after. */
  function RateStep(store: RateStore, key: string, maxRequests: int, windowMs: int, now: int): (bool, RateStore) {
    if key !in store || now > store[key].resetAt then
      (true, store[key := RateEntry(1, now + windowMs)])
    else if store[key].count >= maxRequests then
      (false, store)
    else
      (true, store[key := store[key].(count := store[key].count + 1)])
  }

  /** Opening a window: an absent or lapsed entry (strictly past its reset time) is replaced
      by a count of one that resets `windowMs` later, and the call is allowed. Within a live
      window: refused without any change at the limit, otherwise counted and allowed.
      No other key's entry changes. */
  lemma RateStepCases(store: RateStore, key: string, maxRequests: int, windowMs: int, now: int)
    ensures var (allowed, next) := RateStep(store, key, maxRequests, windowMs, now);
      && next.Keys == store.Keys + {key}
      && (forall k :: k in store && k != key ==> next[k] == store[k])
      && (key !in store || now > store[key].resetAt ==>
            allowed && next[key] == RateEntry(1, now + windowMs))
      && (key in store && now <= store[key].resetAt && store[key].count >= maxRequests ==>
            !allowed && next == store)
      && (key in store && now <= store[key].resetAt && store[key].count < maxRequests ==>
            allowed && next[key] == RateEntry(store[key].count + 1, store[key].resetAt))
  {
  }

  /** The calls at `times`, one after another, on the same key: how many were allowed. */
  function AllowedCount(store: RateStore, key: string, maxRequests: int, windowMs: int, times: seq<int>): nat
    decreases |times|
  {
    if times == [] then 0
    else
      var (allowed, next) := RateStep(store, key, maxRequests, windowMs, times[0]);
      (if allowed then 1 else 0) + AllowedCount(next, key, maxRequests, windowMs, times[1..])
  }

  /** In a live window whose entry already counts `c >= 1`, calls that all come no later
      than the reset time are allowed at most `maxRequests - c` more times. */
  lemma {:induction false} LiveWindowBound(store: RateStore, key: string, maxRequests: int, windowMs: int, times: seq<int>)
    requires key in store && store[key].count >= 1
    requires forall i :: 0 <= i < |times| ==> times[i] <= store[key].resetAt
    ensures AllowedCount(store, key, maxRequests, windowMs, times)
         <= if maxRequests > store[key].count then maxRequests - store[key].count else 0
    decreases |times|
  {
    if times != [] {
      var (allowed, next) := RateStep(store, key, maxRequests, windowMs, times[0]);
      LiveWindowBound(next, key, maxRequests, windowMs, times[1..]);
    }
  }

  /** Within one window, opened by the first call, a key is allowed at most
      `max(maxRequests, 1)` times. */
  lemma OneWindowBound(store: RateStore, key: string, maxRequests: int, windowMs: int, times: seq<int>)
    requires |times| > 0
    requires key !in store || times[0] > store[key].resetAt
    requires forall i :: 0 <= i < |times| ==> times[i] <= times[0] + windowMs
    ensures AllowedCount(store, key, maxRequests, windowMs, times) <= if maxRequests > 1 then maxRequests else 1
  {
    var (allowed, next) := RateStep(store, key, maxRequests, windowMs, times[0]);
    LiveWindowBound(next, key, maxRequests, windowMs, times[1..]);
  }

  /** What the cleanup sweep keeps: the entries whose reset time is not yet past. */
  function LiveEntries(store: RateStore, now: int): RateStore {
    map k | k in store && !(now > store[k].resetAt) :: store[k]
  }

  /** The sweep is invisible to later calls: a check at any time not before the sweep
      decides the same with or without it. */
  lemma CleanupInvisible(store: RateStore, now: int, key: string, maxRequests: int, windowMs: int, later: int)
    requires now <= later
    ensures RateStep(LiveEntries(store, now), key, maxRequests, windowMs, later).0
         == RateStep(store, key, maxRequests, windowMs, later).0
  {
  }

  /** The module-level `rateLimitStore` with `checkRateLimit` and the periodic sweep; the
      clock reading `Date.now()` is the parameter `now`. */
  class RateLimiter {
    var store: RateStore

    constructor ()
      ensures store == map[]
    {
      store := map[];
    }

    method CheckRateLimit(key: string, maxRequests: int, windowMs: int, now: int) returns (allowed: bool)
      modifies this
      ensures (allowed, store) == RateStep(old(store), key, maxRequests, windowMs, now)
    {
      if key !in store || now > store[key].resetAt {
        store := store[key := RateEntry(1, now + windowMs)];
        return true;
      }
      var entry := store[key];
      if entry.count >= maxRequests {
        return false;
      }
      store := store[key := entry.(count := entry.count + 1)];
      return true;
    }

    /** The `setInterval` sweep: visits every entry and deletes exactly those whose reset
        time is past. */
    method Cleanup(now: int)
      modifies this
      ensures store == LiveEntries(old(store), now)
      ensures forall k :: k in old(store) && now > old(store)[k].resetAt ==> k !in store
      ensures forall k :: k in old(store) && now <= old(store)[k].resetAt ==> k in store && store[k] == old(store)[k]
    {
      var pending := store.Keys;
      while pending != {}
        invariant pending <= old(store).Keys
        invariant store == map k | k in old(store) && (k in pending || !(now > old(store)[k].resetAt)) :: old(store)[k]
        decreases pending
      {
        var key :| key in pending;
        if now > store[key].resetAt {
          store := store - {key};
        }
        pending := pending - {key};
      }
    }
  }

  // ---------------------------------------------------------------------------------
  // Sanitizer

  /** The characters `sanitizeText` escapes, in the order it escapes them, and their entities. */
  const Escaped: seq<char> := ['<', '>', '"', '\'']
  const Entities: seq<string> := ["&lt;", "&gt;", "&quot;", "&#x27;"]

  /** `sanitizeText`: the four global replacements, in source order, then `trim`. */
  function SanitizeText(text: string): string {
    Trim(ReplaceAll(ReplaceAll(ReplaceAll(ReplaceAll(text, "<", "&lt;"), ">", "&gt;"), "\"", "&quot;"), "'", "&#x27;"))
  }

  /** `unsanitizeText`: the four entity replacements, in source order. */
  function UnsanitizeText(text: string): string {
    ReplaceAll(ReplaceAll(ReplaceAll(ReplaceAll(text, "&lt;", "<"), "&gt;", ">"), "&quot;", "\""), "&#x27;", "'")
  }

  /** The position of `c` among the escaped characters. */
  function EscapeIndex(c: char): (r: Option<nat>)
    ensures r.Some? ==> r.value < 4 && Escaped[r.value] == c
    ensures r.None? ==> c !in Escaped
  {
    if c == '<' then Some(0) else if c == '>' then Some(1)
    else if c == '"' then Some(2) else if c == '\'' then Some(3) else None
  }

  /** `c` with only the escaped characters of positions `lo..hi-1` turned into entities. */
  function EscapeCharIn(c: char, lo: nat, hi: nat): string {
    match EscapeIndex(c)
    case Some(i) => if lo <= i < hi then Entities[i] else [c]
    case None => [c]
  }

  function EscapeIn(s: string, lo: nat, hi: nat): string {
    if s == [] then [] else EscapeCharIn(s[0], lo, hi) + EscapeIn(s[1..], lo, hi)
  }

  /** The HTML escape of the four characters, as a character-by-character reference. */
  function Escape(s: string): string {
    EscapeIn(s, 0, 4)
  }

  lemma {:induction false} EscapeInConcat(a: string, b: string, lo: nat, hi: nat)
    ensures EscapeIn(a + b, lo, hi) == EscapeIn(a, lo, hi) + EscapeIn(b, lo, hi)
  {
    if a != [] {
      assert (a + b)[0] == a[0] && (a + b)[1..] == a[1..] + b;
      EscapeInConcat(a[1..], b, lo, hi);
    } else {
      assert a + b == b;
    }
  }

  lemma {:induction false} EscapeInNothing(s: string, k: nat)
    ensures EscapeIn(s, k, k) == s
  {
    if s != [] {
      EscapeInNothing(s[1..], k);
      assert s == [s[0]] + s[1..];
    }
  }

  /** No entity contains any of the escaped characters; each starts with `&`, has no other
      `&`, and they differ in their second character. */
  lemma EntityShapes()
    ensures forall i, j :: 0 <= i < 4 && 0 <= j < |Entities[i]| ==> Entities[i][j] !in Escaped
    ensures forall i :: 0 <= i < 4 ==> |Entities[i]| >= 4 && Entities[i][0] == '&' && '&' !in Entities[i][1..]
    ensures forall i, j :: 0 <= i < 4 && 0 <= j < 4 && i != j ==> Entities[i][1] != Entities[j][1]
  {
  }

  /** Replacement `k` of `sanitizeText` escapes character `k` and leaves the entities made by
      the earlier replacements alone. */
  lemma {:induction false} SanitizeStep(s: string, k: nat)
    requires k < 4
    ensures ReplaceAll(EscapeIn(s, 0, k), [Escaped[k]], Entities[k]) == EscapeIn(s, 0, k + 1)
  {
    if s != [] {
      EntityShapes();
      var chunk := EscapeCharIn(s[0], 0, k);
      var rest := EscapeIn(s[1..], 0, k);
      SanitizeStep(s[1..], k);
      match EscapeIndex(s[0])
      case Some(i) =>
        if i < k {
          assert Escaped[k] !in chunk;
          ReplaceAllSkips(chunk, rest, [Escaped[k]], Entities[k]);
        } else if i == k {
          assert (chunk + rest)[..1] == [Escaped[k]] && (chunk + rest)[1..] == rest;
        } else {
          assert chunk == [s[0]] && s[0] != Escaped[k];
          ReplaceAllSkips(chunk, rest, [Escaped[k]], Entities[k]);
        }
      case None =>
        ReplaceAllSkips(chunk, rest, [Escaped[k]], Entities[k]);
    }
  }

  /** Replacement `k` of `unsanitizeText`, on text without `&` whose characters `k..3` are
      escaped, turns exactly the entity `k` back into its character. */
  lemma {:induction false} UnsanitizeStep(t: string, k: nat)
    requires k < 4 && '&' !in t
    ensures ReplaceAll(EscapeIn(t, k, 4), Entities[k], [Escaped[k]]) == EscapeIn(t, k + 1, 4)
  {
    if t != [] {
      UnsanitizeStep(t[1..], k);
      UnsanitizeHead(t, k);
    }
  }

  /** The first character's piece of the escape, under replacement `k`. */
  lemma UnsanitizeHead(t: string, k: nat)
    requires k < 4 && t != [] && t[0] != '&'
    requires ReplaceAll(EscapeIn(t[1..], k, 4), Entities[k], [Escaped[k]]) == EscapeIn(t[1..], k + 1, 4)
    ensures ReplaceAll(EscapeIn(t, k, 4), Entities[k], [Escaped[k]]) == EscapeIn(t, k + 1, 4)
  {
    var chunk := EscapeCharIn(t[0], k, 4);
    var rest := EscapeIn(t[1..], k, 4);
    var e := Entities[k];
    assert EscapeIn(t, k, 4) == chunk + rest;
    match EscapeIndex(t[0])
    case Some(i) =>
      if i == k {
        ReplaceLeadingEntity(e, rest, [Escaped[k]]);
      } else if i > k {
        ReplaceSkipsOtherEntity(Entities[i], rest, e, [Escaped[k]]);
      } else {
        ReplaceAllSkips(chunk, rest, e, [Escaped[k]]);
      }
    case None =>
      ReplaceAllSkips(chunk, rest, e, [Escaped[k]]);
  }

  lemma ReplaceLeadingEntity(e: string, rest: string, r: string)
    requires |e| > 0
    ensures ReplaceAll(e + rest, e, r) == r + ReplaceAll(rest, e, r)
  {
    assert (e + rest)[..|e|] == e && (e + rest)[|e|..] == rest;
  }

  /** An entity other than `e` passes through replacement of `e` whole: it starts with `&`,
      has no other `&`, and differs from `e` in its second character. */
  lemma ReplaceSkipsOtherEntity(x: string, rest: string, e: string, r: string)
    requires |x| >= 2 && |e| >= 2 && x[0] == '&' && e[0] == '&' && '&' !in x[1..] && x[1] != e[1]
    ensures ReplaceAll(x + rest, e, r) == x + ReplaceAll(rest, e, r)
  {
    var y := x + rest;
    if |e| <= |y| {
      assert y[..|e|][1] == y[1] == x[1];
    }
    assert y[1..] == x[1..] + rest;
    ReplaceAllSkips(x[1..], rest, e, r);
    assert x == [x[0]] + x[1..];
  }

  /** The chain of replacements in `sanitizeText` is the character-by-character escape. */
  lemma ReplacementsEscape(s: string)
    ensures ReplaceAll(ReplaceAll(ReplaceAll(ReplaceAll(s, "<", "&lt;"), ">", "&gt;"), "\"", "&quot;"), "'", "&#x27;")
         == Escape(s)
  {
    EscapeInNothing(s, 0);
    SanitizeLt(s);
    SanitizeGt(s);
    SanitizeQuot(s);
    SanitizeApos(s);
  }

  lemma SanitizeLt(s: string)
    ensures ReplaceAll(s, "<", "&lt;") == EscapeIn(s, 0, 1)
  {
    EscapeInNothing(s, 0);
    SanitizeStep(s, 0);
    assert Entities[0] == "&lt;" && [Escaped[0]] == "<";
  }

  lemma SanitizeGt(s: string)
    ensures ReplaceAll(EscapeIn(s, 0, 1), ">", "&gt;") == EscapeIn(s, 0, 2)
  {
    SanitizeStep(s, 1);
    assert Entities[1] == "&gt;" && [Escaped[1]] == ">";
  }

  lemma SanitizeQuot(s: string)
    ensures ReplaceAll(EscapeIn(s, 0, 2), "\"", "&quot;") == EscapeIn(s, 0, 3)
  {
    SanitizeStep(s, 2);
    assert Entities[2] == "&quot;" && [Escaped[2]] == "\"";
  }

  lemma SanitizeApos(s: string)
    ensures ReplaceAll(EscapeIn(s, 0, 3), "'", "&#x27;") == EscapeIn(s, 0, 4)
  {
    SanitizeStep(s, 3);
    assert Entities[3] == "&#x27;" && [Escaped[3]] == "'";
  }

  lemma {:induction false} EscapeTrimStart(s: string)
    ensures TrimStart(Escape(s)) == Escape(TrimStart(s))
  {
    if s != [] {
      var e := Escape(s);
      var chunk := EscapeCharIn(s[0], 0, 4);
      assert e == chunk + Escape(s[1..]);
      if IsWhitespace(s[0]) {
        assert chunk == [s[0]];
        assert e[0] == s[0] && e[1..] == Escape(s[1..]);
        assert TrimStart(e) == TrimStart(Escape(s[1..]));
        assert TrimStart(s) == TrimStart(s[1..]);
        EscapeTrimStart(s[1..]);
      } else {
        assert e[0] == chunk[0] && !IsWhitespace(chunk[0]);
        assert TrimStart(e) == e;
        assert TrimStart(s) == s;
      }
    }
  }

  lemma {:induction false} EscapeTrimEnd(s: string)
    ensures TrimEnd(Escape(s)) == Escape(TrimEnd(s))
    decreases |s|
  {
    if s != [] {
      var init, last := s[..|s| - 1], s[|s| - 1];
      assert s == init + [last];
      EscapeSnoc(init, last);
      var chunk := EscapeCharIn(last, 0, 4);
      ChunkEnd(last);
      if IsWhitespace(last) {
        EscapeTrimEnd(init);
        TrimEndDropsLast(Escape(init), last);
      } else {
        var e := Escape(s);
        assert e[|e| - 1] == chunk[|chunk| - 1];
      }
    }
  }

  lemma EscapeSnoc(init: string, last: char)
    ensures Escape(init + [last]) == Escape(init) + EscapeCharIn(last, 0, 4)
  {
    EscapeInConcat(init, [last], 0, 4);
    assert EscapeIn([last], 0, 4) == EscapeCharIn(last, 0, 4) + EscapeIn([], 0, 4);
  }

  /** A character's escape is itself when it is whitespace, and otherwise ends in a
      character that is not whitespace. */
  lemma ChunkEnd(c: char)
    ensures var chunk := EscapeCharIn(c, 0, 4);
      && |chunk| >= 1
      && (IsWhitespace(c) ==> chunk == [c])
      && (!IsWhitespace(c) ==> !IsWhitespace(chunk[|chunk| - 1]))
  {
    EntityShapes();
    assert Entities[0][3] == ';' && Entities[1][3] == ';' && Entities[2][5] == ';' && Entities[3][5] == ';';
  }

  lemma TrimEndDropsLast(x: string, c: char)
    requires IsWhitespace(c)
    ensures TrimEnd(x + [c]) == TrimEnd(x)
  {
    assert (x + [c])[..|x|] == x;
  }

  /** `sanitizeText(s)` is the escape of `trim(s)`: trimming and escaping commute, since the
      entities hold no whitespace. */
  lemma SanitizeIsEscapeOfTrim(s: string)
    ensures SanitizeText(s) == Escape(Trim(s))
  {
    ReplacementsEscape(s);
    EscapeTrimStart(s);
    EscapeTrimEnd(TrimStart(s));
  }

  lemma {:induction false} EscapeHasNoMarkup(s: string)
    ensures forall i :: 0 <= i < |Escape(s)| ==> Escape(s)[i] !in Escaped
  {
    if s != [] {
      EntityShapes();
      EscapeHasNoMarkup(s[1..]);
      var chunk := EscapeCharIn(s[0], 0, 4);
      assert forall i :: 0 <= i < |chunk| ==> chunk[i] !in Escaped;
      assert Escape(s) == chunk + Escape(s[1..]);
    }
  }

  /** Text without any of the four characters is its own escape. */
  lemma {:induction false} EscapeOfPlain(s: string)
    requires forall i :: 0 <= i < |s| ==> s[i] !in Escaped
    ensures Escape(s) == s
  {
    if s != [] {
      EscapeOfPlain(s[1..]);
      assert s == [s[0]] + s[1..];
    }
  }

  /** The sanitized text contains none of `<`, `>`, `"` and `'`. */
  lemma SanitizedHasNoMarkup(s: string)
    ensures forall i :: 0 <= i < |SanitizeText(s)| ==> SanitizeText(s)[i] !in Escaped
  {
    ReplacementsEscape(s);
    EscapeHasNoMarkup(s);
  }

  /** Unsanitizing undoes the escape of text without `&`. */
  lemma UnsanitizeEscape(t: string)
    requires '&' !in t
    ensures UnsanitizeText(Escape(t)) == t
  {
    UnsanitizeLt(t);
    UnsanitizeGt(t);
    UnsanitizeQuot(t);
    UnsanitizeApos(t);
    EscapeInNothing(t, 4);
  }

  lemma UnsanitizeLt(t: string)
    requires '&' !in t
    ensures ReplaceAll(Escape(t), "&lt;", "<") == EscapeIn(t, 1, 4)
  {
    UnsanitizeStep(t, 0);
    assert Entities[0] == "&lt;" && [Escaped[0]] == "<";
  }

  lemma UnsanitizeGt(t: string)
    requires '&' !in t
    ensures ReplaceAll(EscapeIn(t, 1, 4), "&gt;", ">") == EscapeIn(t, 2, 4)
  {
    UnsanitizeStep(t, 1);
    assert Entities[1] == "&gt;" && [Escaped[1]] == ">";
  }

  lemma UnsanitizeQuot(t: string)
    requires '&' !in t
    ensures ReplaceAll(EscapeIn(t, 2, 4), "&quot;", "\"") == EscapeIn(t, 3, 4)
  {
    UnsanitizeStep(t, 2);
    assert Entities[2] == "&quot;" && [Escaped[2]] == "\"";
  }

  lemma UnsanitizeApos(t: string)
    requires '&' !in t
    ensures ReplaceAll(EscapeIn(t, 3, 4), "&#x27;", "'") == EscapeIn(t, 4, 4)
  {
    UnsanitizeStep(t, 3);
    assert Entities[3] == "&#x27;" && [Escaped[3]] == "'";
  }

  /** Round trip: for text without `&`, unsanitizing the sanitized text gives the trimmed text. */
  lemma SanitizeRoundTrip(s: string)
    requires '&' !in s
    ensures UnsanitizeText(SanitizeText(s)) == Trim(s)
  {
    SanitizeIsEscapeOfTrim(s);
    UnsanitizeEscape(Trim(s));
  }

  /** Without the `&` restriction the round trip fails: text that already spells an entity
      comes back as the character it names. */
  lemma EntityInInputDoesNotRoundTrip(t: string)
    requires t == "&lt;"
    ensures SanitizeText(t) == t
    ensures UnsanitizeText(SanitizeText(t)) == "<"
  {
    SanitizeIsEscapeOfTrim(t);
    assert |t| == 4 && t[0] == '&' && t[1] == 'l' && t[2] == 't' && t[3] == ';';
    PlainEntityText(t);
    UnsanitizeEntity(t);
  }

  lemma PlainEntityText(t: string)
    requires t == "&lt;"
    ensures Trim(t) == t && Escape(t) == t
  {
    assert |t| == 4 && t[0] == '&' && t[1] == 'l' && t[2] == 't' && t[3] == ';';
    assert NoWhitespace(t);
    assert '&' !in Escaped && 'l' !in Escaped && 't' !in Escaped && ';' !in Escaped;
    EscapeOfPlain(t);
  }

  lemma UnsanitizeEntity(t: string)
    requires t == "&lt;"
    ensures UnsanitizeText(t) == "<"
  {
    var u := ReplaceAll(t, "&lt;", "<");
    assert u == "<" + ReplaceAll([], "&lt;", "<") == "<";
    ReplaceAllSkips("<", [], "&gt;", ">");
    ReplaceAllSkips("<", [], "&quot;", "\"");
    ReplaceAllSkips("<", [], "&#x27;", "'");
    assert "<" + [] == "<";
  }
}
