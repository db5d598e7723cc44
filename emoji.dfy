/**
 * `stripEmojis` of the chat client: a global regular-expression replace with
 * the empty string. The pattern has no `u` flag, so it is matched against
 * UTF-16 code units. It is modelled as written, as an ordered list of
 * alternatives and the left-to-right scan of a global replace, and then
 * proved equal to a filter that drops single code units.
 */
module Emoji {
  import opened JsString

  /** One alternative of the pattern: a unit in [lo, hi], or the unit `lead` followed by a unit in [lo, hi]. */
  datatype Alternative =
    | Single(lo: CodeUnit, hi: CodeUnit)
    | Pair(lead: CodeUnit, lo: CodeUnit, hi: CodeUnit)

  /** The alternatives of the source's pattern, in the order the regular expression tries them. */
  const Pattern: seq<Alternative> := [
    Single(0x2700, 0x27BF),
    Single(0xE000, 0xF8FF),
    Single(0xD800, 0xDFFF),
    Single(0xFE00, 0xFE0F),
    Single(0x24C2, 0x24C2),
    Pair(0xD83C, 0xDDE6, 0xDDFF),
    Pair(0xD83D, 0xDC00, 0xDE4F),
    Pair(0xD83D, 0xDE80, 0xDEFF),
    Pair(0xD83E, 0xDD00, 0xDDFF)
  ]

  /** The number of units alternative `a` matches at position `i` of `s`; 0 when it does not match. */
  function MatchLength(a: Alternative, s: Str, i: nat): (n: nat)
    requires i <= |s|
    ensures n <= |s| - i
  {
    match a
    case Single(lo, hi) => if i < |s| && lo <= s[i] <= hi then 1 else 0
    case Pair(lead, lo, hi) => if i + 1 < |s| && s[i] == lead && lo <= s[i + 1] <= hi then 2 else 0
  }

  /** The length of the match of the first alternative that matches at `i`; 0 when none does. */
  function MatchAt(alts: seq<Alternative>, s: Str, i: nat): (n: nat)
    requires i <= |s|
    ensures n <= |s| - i
  {
    if alts == [] then 0
    else
      var n := MatchLength(alts[0], s, i);
      if n > 0 then n else MatchAt(alts[1..], s, i)
  }

  /** `s.replace(pattern, '')` for a global pattern, from position `i` on. */
  function ReplaceAll(alts: seq<Alternative>, s: Str, i: nat): Str
    requires i <= |s|
    decreases |s| - i
  {
    if i == |s| then []
    else
      var n := MatchAt(alts, s, i);
      if n > 0 then ReplaceAll(alts, s, i + n) else [s[i]] + ReplaceAll(alts, s, i + 1)
  }

  /** The client's `stripEmojis` as written. */
  function StripEmojis(text: Str): Str
  {
    ReplaceAll(Pattern, text, 0)
  }

  /** The units the filter removes: U+2700..U+27BF, U+E000..U+F8FF, every surrogate, U+FE00..U+FE0F and U+24C2. */
  predicate IsEmojiUnit(u: CodeUnit)
  {
    (0x2700 <= u <= 0x27BF) || (0xE000 <= u <= 0xF8FF) || IsSurrogate(u) ||
    (0xFE00 <= u <= 0xFE0F) || u == 0x24C2
  }

  /** The reference definition: keep, in order, every unit that is not an emoji unit. */
  function KeepNonEmoji(s: Str): Str
  {
    if s == [] then [] else (if IsEmojiUnit(s[0]) then [] else [s[0]]) + KeepNonEmoji(s[1..])
  }

  /**
   * At each position the pattern matches exactly one unit when that unit is
   * an emoji unit, and nothing otherwise: the two-unit alternatives all begin
   * with a surrogate, which the third alternative has already matched.
   */
  lemma MatchAtPattern(s: Str, i: nat)
    requires i < |s|
    ensures MatchAt(Pattern, s, i) == if IsEmojiUnit(s[i]) then 1 else 0
  {
    var u := s[i];
    var k := if 0x2700 <= u <= 0x27BF then 0
      else if 0xE000 <= u <= 0xF8FF then 1
      else if IsSurrogate(u) then 2
      else if 0xFE00 <= u <= 0xFE0F then 3
      else if u == 0x24C2 then 4
      else 9;
    MatchAtSkip(Pattern, s, i, k);
    if k < 9 {
      assert Pattern[k..][0] == Pattern[k];
    } else {
      assert Pattern[k..] == [];
    }
  }

  /** Alternatives that do not match are passed over. */
  lemma {:induction false} MatchAtSkip(alts: seq<Alternative>, s: Str, i: nat, k: nat)
    requires i <= |s| && k <= |alts|
    requires forall j | 0 <= j < k :: MatchLength(alts[j], s, i) == 0
    ensures MatchAt(alts, s, i) == MatchAt(alts[k..], s, i)
  {
    if k > 0 {
      assert alts[1..][k - 1..] == alts[k..];
      MatchAtSkip(alts[1..], s, i, k - 1);
    }
  }

  lemma {:induction false} ReplaceAllIsFilter(s: Str, i: nat)
    requires i <= |s|
    ensures ReplaceAll(Pattern, s, i) == KeepNonEmoji(s[i..])
    decreases |s| - i
  {
    if i < |s| {
      MatchAtPattern(s, i);
      ReplaceAllIsFilter(s, i + 1);
      assert s[i..][1..] == s[i + 1..];
    }
  }

  /** The regular-expression replace is the per-unit filter. */
  lemma StripEmojisIsFilter(text: Str)
    ensures StripEmojis(text) == KeepNonEmoji(text)
  {
    ReplaceAllIsFilter(text, 0);
    assert text[0..] == text;
  }

  lemma {:induction false} KeepNonEmojiAppend(a: Str, b: Str)
    ensures KeepNonEmoji(a + b) == KeepNonEmoji(a) + KeepNonEmoji(b)
  {
    if a == [] {
      assert a + b == b;
    } else {
      assert (a + b)[1..] == a[1..] + b;
      KeepNonEmojiAppend(a[1..], b);
    }
  }

  lemma {:induction false} KeepNonEmojiExcludes(s: Str)
    ensures forall k | 0 <= k < |KeepNonEmoji(s)| :: !IsEmojiUnit(KeepNonEmoji(s)[k])
  {
    if s != [] {
      KeepNonEmojiExcludes(s[1..]);
    }
  }

  lemma {:induction false} KeepNonEmojiCounts(s: Str, u: CodeUnit)
    ensures multiset(KeepNonEmoji(s))[u] == if IsEmojiUnit(u) then 0 else multiset(s)[u]
  {
    if s != [] {
      KeepNonEmojiCounts(s[1..], u);
      assert s == [s[0]] + s[1..];
    }
  }

  /** `sub` is `s` with some units left out, the rest in their original order. */
  predicate IsSubsequence(sub: Str, s: Str)
  {
    if sub == [] then true
    else if s == [] then false
    else (sub[0] == s[0] && IsSubsequence(sub[1..], s[1..])) || IsSubsequence(sub, s[1..])
  }

  lemma {:induction false} SubsequenceShorter(sub: Str, s: Str)
    requires IsSubsequence(sub, s)
    ensures |sub| <= |s|
  {
    if sub != [] {
      if sub[0] == s[0] && IsSubsequence(sub[1..], s[1..]) {
        SubsequenceShorter(sub[1..], s[1..]);
      } else {
        SubsequenceShorter(sub, s[1..]);
      }
    }
  }

  lemma {:induction false} KeepNonEmojiSubsequence(s: Str)
    ensures IsSubsequence(KeepNonEmoji(s), s)
  {
    if s != [] {
      KeepNonEmojiSubsequence(s[1..]);
      if IsEmojiUnit(s[0]) {
        assert KeepNonEmoji(s) == KeepNonEmoji(s[1..]);
      } else {
        assert KeepNonEmoji(s)[1..] == KeepNonEmoji(s[1..]);
      }
    }
  }

  lemma {:induction false} KeepNonEmojiOfClean(s: Str)
    requires forall k | 0 <= k < |s| :: !IsEmojiUnit(s[k])
    ensures KeepNonEmoji(s) == s
  {
    if s != [] {
      KeepNonEmojiOfClean(s[1..]);
    }
  }

  /** No unit of the output lies in a stripped range: no surrogate survives. */
  lemma StripEmojisExcludes(text: Str)
    ensures forall k | 0 <= k < |StripEmojis(text)| :: !IsEmojiUnit(StripEmojis(text)[k])
  {
    StripEmojisIsFilter(text);
    KeepNonEmojiExcludes(text);
  }

  /**
   * The output keeps every other unit, in order: it is a subsequence of the
   * input, no longer than it, holding each non-emoji unit exactly as often as
   * the input does and no emoji unit at all.
   */
  lemma StripEmojisKeeps(text: Str, u: CodeUnit)
    ensures IsSubsequence(StripEmojis(text), text)
    ensures |StripEmojis(text)| <= |text|
    ensures multiset(StripEmojis(text))[u] == if IsEmojiUnit(u) then 0 else multiset(text)[u]
  {
    StripEmojisIsFilter(text);
    KeepNonEmojiSubsequence(text);
    SubsequenceShorter(KeepNonEmoji(text), text);
    KeepNonEmojiCounts(text, u);
  }

  /** A text without emoji units is left unchanged. */
  lemma StripEmojisOfClean(text: Str)
    requires forall k | 0 <= k < |text| :: !IsEmojiUnit(text[k])
    ensures StripEmojis(text) == text
  {
    StripEmojisIsFilter(text);
    KeepNonEmojiOfClean(text);
  }

  /** Stripping works piece by piece. */
  lemma StripEmojisAppend(a: Str, b: Str)
    ensures StripEmojis(a + b) == StripEmojis(a) + StripEmojis(b)
  {
    StripEmojisIsFilter(a + b);
    StripEmojisIsFilter(a);
    StripEmojisIsFilter(b);
    KeepNonEmojiAppend(a, b);
  }

  /** Stripping twice is stripping once. */
  lemma StripEmojisIdempotent(text: Str)
    ensures StripEmojis(StripEmojis(text)) == StripEmojis(text)
  {
    StripEmojisExcludes(text);
    StripEmojisOfClean(StripEmojis(text));
  }

  /** The characters that survive the filter: those of the Basic Multilingual Plane whose unit is not an emoji unit. */
  predicate KeptChar(c: char)
  {
    c as int < 0x1_0000 && !IsEmojiUnit(c as int as CodeUnit)
  }

  /** The reference definition at the level of characters. */
  function KeepChars(s: string): string
  {
    if s == [] then [] else (if KeptChar(s[0]) then [s[0]] else []) + KeepChars(s[1..])
  }

  /**
   * On well-formed text, stripping removes whole characters: every character
   * outside the Basic Multilingual Plane goes with both of its units, and so
   * does every character in the stripped ranges; the rest stays.
   */
  lemma {:induction false} StripEmojisEncode(s: string)
    ensures StripEmojis(Encode(s)) == Encode(KeepChars(s))
  {
    if s == [] {
      StripEmojisIsFilter([]);
    } else {
      var head := EncodeChar(s[0]);
      StripEmojisAppend(head, Encode(s[1..]));
      StripEmojisEncode(s[1..]);
      StripEmojisIsFilter(head);
      if |head| == 1 {
        assert head[1..] == [];
        assert head[0] == s[0] as int as CodeUnit;
      } else {
        assert head[1..][1..] == [];
        assert IsEmojiUnit(head[0]) && IsEmojiUnit(head[1]);
        assert KeepNonEmoji(head[1..]) == [];
        assert KeepNonEmoji(head) == [];
      }
      var kept := if KeptChar(s[0]) then [s[0]] else [];
      assert KeepChars(s) == kept + KeepChars(s[1..]);
      EncodeAppend(kept, KeepChars(s[1..]));
      if KeptChar(s[0]) {
        assert kept[1..] == [];
        assert Encode(kept) == head;
      }
      assert StripEmojis(head) == Encode(kept);
    }
  }
}
