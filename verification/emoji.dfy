/** EmojiService: shortcode conversion in both directions, the list of
    available emojis and the validity test. The shortcode table is a
    parameter: a PHP array, i.e. (shortcode, emoji) pairs in declaration
    order. */
module EmojiService {
  import opened Common

  type Table = seq<(string, string)>

  /** `isset($array[$k])` on an array kept as pairs. */
  predicate HasKey(pairs: seq<(string, string)>, k: string) {
    exists i :: 0 <= i < |pairs| && pairs[i].0 == k
  }

  /** `in_array($v, $array)`. */
  predicate HasValue(pairs: seq<(string, string)>, v: string) {
    exists i :: 0 <= i < |pairs| && pairs[i].1 == v
  }

  /** No two pairs share their first component. */
  predicate FirstsDistinct(pairs: seq<(string, string)>) {
    forall i, j :: 0 <= i < j < |pairs| ==> pairs[i].0 != pairs[j].0
  }

  // ---------------------------------------------------------------------------
  // Replacing in order
  // ---------------------------------------------------------------------------

  /** A `foreach` of `str_replace` over (search, replacement) pairs: each
      replacement sees the text the earlier ones produced. */
  function ReplaceEach(pairs: seq<(string, string)>, text: string): string
    decreases |pairs|
  {
    if |pairs| == 0 then text else ReplaceEach(pairs[1..], ReplaceAll(text, pairs[0].0, pairs[0].1))
  }

  /** The fold is a left fold: a split table is two folds in sequence. */
  lemma {:induction false} ReplaceEachSplits(p: seq<(string, string)>, q: seq<(string, string)>, text: string)
    ensures ReplaceEach(p + q, text) == ReplaceEach(q, ReplaceEach(p, text))
    decreases |p|
  {
    if |p| == 0 {
      assert p + q == q;
    } else {
      var x := ReplaceAll(text, p[0].0, p[0].1);
      assert (p + q)[0] == p[0];
      assert (p + q)[1..] == p[1..] + q;
      assert ReplaceEach(p + q, text) == ReplaceEach(p[1..] + q, x);
      ReplaceEachSplits(p[1..], q, x);
    }
  }

  /** Text containing none of the search strings comes back unchanged. */
  lemma {:induction false} ReplaceEachAbsent(pairs: seq<(string, string)>, text: string)
    requires forall i :: 0 <= i < |pairs| ==> !Contains(text, pairs[i].0)
    ensures ReplaceEach(pairs, text) == text
    decreases |pairs|
  {
    if |pairs| > 0 {
      ReplaceAbsentIsIdentity(text, pairs[0].0, pairs[0].1);
      ReplaceEachAbsent(pairs[1..], text);
    }
  }

  /** `str_replace` replaces the first occurrence of the search string and
      carries on after it: everything before is untouched. */
  lemma {:induction false} ReplaceAtFirstOccurrence(a: string, from: string, to: string, b: string)
    requires |from| > 0
    requires !Contains(a + from[..|from| - 1], from)
    ensures ReplaceAll(a + from + b, from, to) == ReplaceAll(a, from, to) + to + ReplaceAll(b, from, to)
    decreases |a|
  {
    var s := a + from + b;
    var head := a + from[..|from| - 1];
    if |a| == 0 {
      assert s == from + b;
      assert StartsWith(s, from);
      assert s[|from|..] == b;
    } else {
      assert s[..|from|] == head[..|from|];
      assert !StartsWith(s, from);
      if |from| <= |a| {
        assert a[..|from|] == head[..|from|];
      }
      assert !StartsWith(a, from);
      assert head[1..] == a[1..] + from[..|from| - 1];
      assert !Contains(a[1..] + from[..|from| - 1], from);
      ReplaceAtFirstOccurrence(a[1..], from, to, b);
      assert s[1..] == a[1..] + from + b;
    }
  }

  // ---------------------------------------------------------------------------
  // Shortcodes to emojis
  // ---------------------------------------------------------------------------

  /** `convertShortcodes`: every shortcode of the table, in declaration order. */
  function ConvertShortcodes(t: Table, text: string): (r: string)
    ensures (forall i :: 0 <= i < |t| ==> !Contains(text, t[i].0)) ==> r == text
  {
    if forall i :: 0 <= i < |t| ==> !Contains(text, t[i].0) then
      ReplaceEachAbsent(t, text);
      text
    else
      ReplaceEach(t, text)
  }

  /** Every occurrence of a shortcode is replaced, not just the first:
      ':heart: :heart: :heart:' becomes three hearts. */
  lemma EveryOccurrenceReplaced(code: string, emoji: string)
    requires |code| > 0 && code[0] == ':'
    ensures ConvertShortcodes([(code, emoji)], code + " " + code + " " + code) == emoji + " " + emoji + " " + emoji
  {
    var text := code + " " + code + " " + code;
    ThreeOccurrences(code, emoji);
    assert StartsWith(text, code);
    assert ReplaceEach([(code, emoji)], text) == ReplaceAll(text, code, emoji);
  }

  /** The text of `EveryOccurrenceReplaced`: a leading shortcode, then two
      separated ones. */
  lemma ThreeOccurrences(code: string, emoji: string)
    requires |code| > 0 && code[0] == ':'
    ensures ReplaceAll(code + " " + code + " " + code, code, emoji) == emoji + " " + emoji + " " + emoji
  {
    var rest := " " + code + " " + code;
    Regroup(code);
    LeadingOccurrence(code, emoji, rest);
    TwoSeparatedOccurrences(code, emoji);
    Regroup(emoji);
  }

  /** Three space-separated copies, regrouped after the first copy. */
  lemma Regroup(a: string)
    ensures a + " " + a + " " + a == a + (" " + a + " " + a)
  {
  }

  /** A text that starts with the shortcode. */
  lemma LeadingOccurrence(code: string, emoji: string, rest: string)
    requires |code| > 0
    ensures ReplaceAll(code + rest, code, emoji) == emoji + ReplaceAll(rest, code, emoji)
  {
    NoProperPrefixContains(code);
    assert [] + code[..|code| - 1] == code[..|code| - 1];
    assert [] + code + rest == code + rest;
    ReplaceAtFirstOccurrence([], code, emoji, rest);
  }

  /** Two shortcodes, each after a space. */
  lemma TwoSeparatedOccurrences(code: string, emoji: string)
    requires |code| > 0 && code[0] == ':'
    ensures ReplaceAll(" " + code + " " + code, code, emoji) == " " + emoji + " " + emoji
  {
    SpacedPair(code);
    ReplaceSeparatedOccurrence(code, emoji, " " + code);
    LastSeparatedOccurrence(code, emoji);
    SpacedPair(emoji);
  }

  /** One shortcode after a space, and nothing after it. */
  lemma LastSeparatedOccurrence(code: string, emoji: string)
    requires |code| > 0 && code[0] == ':'
    ensures ReplaceAll(" " + code, code, emoji) == " " + emoji
  {
    SpacedPair(code);
    SpacedPair(emoji);
    ReplaceSeparatedOccurrence(code, emoji, []);
    assert ReplaceAll([], code, emoji) == [];
  }

  /** Two space-separated copies, regrouped after the first copy. */
  lemma SpacedPair(a: string)
    ensures " " + a + " " + a == " " + a + (" " + a)
    ensures " " + a + [] == " " + a
  {
  }

  /** One space, then a shortcode, then the rest. */
  lemma ReplaceSeparatedOccurrence(code: string, emoji: string, rest: string)
    requires |code| > 0 && code[0] == ':'
    ensures ReplaceAll(" " + code + rest, code, emoji) == " " + emoji + ReplaceAll(rest, code, emoji)
  {
    var sp := " ";
    var head := sp + code[..|code| - 1];
    NoProperPrefixContains(code);
    assert head[0] != code[0];
    assert head[1..] == code[..|code| - 1];
    assert !Contains(head, code);
    ReplaceAtFirstOccurrence(sp, code, emoji, rest);
    assert sp[0] != code[0];
    assert sp[1..] == [];
    assert ReplaceAll(sp, code, emoji) == sp;
  }

  // ---------------------------------------------------------------------------
  // Emojis back to shortcodes
  // ---------------------------------------------------------------------------

  /** PHP `$acc[$e] = $k` on an array kept as pairs: an existing key keeps its
      position and takes the new value; a new key goes to the end. */
  function Put(acc: seq<(string, string)>, e: string, k: string): (r: seq<(string, string)>)
    ensures forall i :: 0 <= i < |acc| && acc[i].0 == e && (forall j :: 0 <= j < i ==> acc[j].0 != e) ==>
              r == acc[i := (e, k)]
    ensures !HasKey(acc, e) ==> r == acc + [(e, k)]
    decreases |acc|
  {
    if |acc| == 0 then [(e, k)]
    else if acc[0].0 == e then
      assert [(e, k)] + acc[1..] == acc[0 := (e, k)];
      [(e, k)] + acc[1..]
    else
      var rest := Put(acc[1..], e, k);
      PutBehindOtherKey(acc, e, k, rest);
      [acc[0]] + rest
  }

  /** Putting behind a different first key: the first key stays in front of
      the assignment made to the rest. */
  lemma PutBehindOtherKey(acc: seq<(string, string)>, e: string, k: string, rest: seq<(string, string)>)
    requires |acc| > 0 && acc[0].0 != e
    requires forall i :: 0 <= i < |acc[1..]| && acc[1..][i].0 == e && (forall j :: 0 <= j < i ==> acc[1..][j].0 != e) ==>
               rest == acc[1..][i := (e, k)]
    requires !HasKey(acc[1..], e) ==> rest == acc[1..] + [(e, k)]
    ensures forall i :: 0 <= i < |acc| && acc[i].0 == e && (forall j :: 0 <= j < i ==> acc[j].0 != e) ==>
              [acc[0]] + rest == acc[i := (e, k)]
    ensures !HasKey(acc, e) ==> [acc[0]] + rest == acc + [(e, k)]
  {
    var r := [acc[0]] + rest;
    forall i | 0 <= i < |acc| && acc[i].0 == e && (forall j :: 0 <= j < i ==> acc[j].0 != e)
      ensures r == acc[i := (e, k)]
    {
      assert acc[1..][i - 1].0 == e;
      assert forall j :: 0 <= j < i - 1 ==> acc[1..][j].0 == acc[j + 1].0;
      assert rest == acc[1..][i - 1 := (e, k)];
    }
    if !HasKey(acc, e) {
      assert acc == [acc[0]] + acc[1..];
    }
  }

  /** The first index holding a key. */
  lemma {:induction false} FirstKeyIndex(acc: seq<(string, string)>, e: string) returns (i: nat)
    requires HasKey(acc, e)
    ensures i < |acc| && acc[i].0 == e && forall j :: 0 <= j < i ==> acc[j].0 != e
    decreases |acc|
  {
    if acc[0].0 == e {
      i := 0;
    } else {
      var w :| 0 <= w < |acc| && acc[w].0 == e;
      assert acc[1..][w - 1].0 == e;
      var i' := FirstKeyIndex(acc[1..], e);
      i := i' + 1;
      assert forall j :: 1 <= j < i ==> acc[j] == acc[1..][j - 1];
    }
  }

  /** After `Put`, the keys are the old ones plus the new one, the new key
      maps to the new value, every other entry is an old one, and keys stay
      distinct. */
  lemma PutFacts(acc: seq<(string, string)>, e: string, k: string)
    requires FirstsDistinct(acc)
    ensures forall x :: HasKey(Put(acc, e, k), x) <==> x == e || HasKey(acc, x)
    ensures forall i :: 0 <= i < |Put(acc, e, k)| && Put(acc, e, k)[i].0 == e ==> Put(acc, e, k)[i].1 == k
    ensures forall i :: 0 <= i < |Put(acc, e, k)| && Put(acc, e, k)[i].0 != e ==> Put(acc, e, k)[i] in acc
    ensures FirstsDistinct(Put(acc, e, k))
  {
    if HasKey(acc, e) {
      PutExistingFacts(acc, e, k);
    } else {
      PutNewFacts(acc, e, k);
    }
  }

  /** `PutFacts` for a key already present: it is overwritten in place. */
  lemma PutExistingFacts(acc: seq<(string, string)>, e: string, k: string)
    requires FirstsDistinct(acc) && HasKey(acc, e)
    ensures forall x :: HasKey(Put(acc, e, k), x) <==> x == e || HasKey(acc, x)
    ensures forall i :: 0 <= i < |Put(acc, e, k)| && Put(acc, e, k)[i].0 == e ==> Put(acc, e, k)[i].1 == k
    ensures forall i :: 0 <= i < |Put(acc, e, k)| && Put(acc, e, k)[i].0 != e ==> Put(acc, e, k)[i] in acc
    ensures FirstsDistinct(Put(acc, e, k))
  {
    var r := Put(acc, e, k);
    var i := FirstKeyIndex(acc, e);
    assert r == acc[i := (e, k)];
    forall x ensures HasKey(r, x) <==> x == e || HasKey(acc, x) {
      if HasKey(acc, x) {
        var j :| 0 <= j < |acc| && acc[j].0 == x;
        assert r[j].0 == x;
      }
      if HasKey(r, x) {
        var j :| 0 <= j < |r| && r[j].0 == x;
        assert acc[j].0 == x;
      }
    }
    forall j | 0 <= j < |r| && r[j].0 != e ensures r[j] in acc {
      assert r[j] == acc[j];
    }
  }

  /** `PutFacts` for a new key: it is appended. */
  lemma PutNewFacts(acc: seq<(string, string)>, e: string, k: string)
    requires FirstsDistinct(acc) && !HasKey(acc, e)
    ensures forall x :: HasKey(Put(acc, e, k), x) <==> x == e || HasKey(acc, x)
    ensures forall i :: 0 <= i < |Put(acc, e, k)| && Put(acc, e, k)[i].0 == e ==> Put(acc, e, k)[i].1 == k
    ensures forall i :: 0 <= i < |Put(acc, e, k)| && Put(acc, e, k)[i].0 != e ==> Put(acc, e, k)[i] in acc
    ensures FirstsDistinct(Put(acc, e, k))
  {
    var r := Put(acc, e, k);
    assert r == acc + [(e, k)];
    forall x ensures HasKey(r, x) <==> x == e || HasKey(acc, x) {
      assert r[|acc|].0 == e;
      if HasKey(acc, x) {
        var j :| 0 <= j < |acc| && acc[j].0 == x;
        assert r[j].0 == x;
      }
      if HasKey(r, x) && x != e {
        var j :| 0 <= j < |r| && r[j].0 == x;
        assert acc[j].0 == x;
      }
    }
    forall j | 0 <= j < |r| && r[j].0 != e ensures r[j] in acc {
      assert r[j] == acc[j];
    }
  }

  /** `array_flip`: each emoji once, at the position of its first shortcode,
      mapped to the shortcode declared last for it. */
  function Flipped(t: Table): seq<(string, string)>
    decreases |t|
  {
    if |t| == 0 then [] else Put(Flipped(t[..|t| - 1]), t[|t| - 1].1, t[|t| - 1].0)
  }

  /** The shortcode declared last for an emoji. */
  function LastCode(t: Table, e: string): string
    decreases |t|
  {
    if |t| == 0 then ""
    else if t[|t| - 1].1 == e then t[|t| - 1].0
    else LastCode(t[..|t| - 1], e)
  }

  /** `LastCode` is the shortcode at the last index carrying the emoji. */
  lemma {:induction false} LastCodeIsLastIndex(t: Table, i: nat)
    requires i < |t|
    requires forall j :: i < j < |t| ==> t[j].1 != t[i].1
    ensures LastCode(t, t[i].1) == t[i].0
    decreases |t|
  {
    if i < |t| - 1 {
      LastCodeIsLastIndex(t[..|t| - 1], i);
    }
  }

  /** `array_flip` keeps every emoji exactly once and maps it to the shortcode
      declared last for it. */
  lemma {:induction false} FlipKeepsLastCode(t: Table)
    ensures FirstsDistinct(Flipped(t))
    ensures forall x :: HasKey(Flipped(t), x) <==> HasValue(t, x)
    ensures forall i :: 0 <= i < |Flipped(t)| ==> Flipped(t)[i].1 == LastCode(t, Flipped(t)[i].0)
    decreases |t|
  {
    if |t| > 0 {
      var p := t[..|t| - 1];
      var last := t[|t| - 1];
      FlipKeepsLastCode(p);
      var acc := Flipped(p);
      var r := Flipped(t);
      assert r == Put(acc, last.1, last.0);
      PutFacts(acc, last.1, last.0);
      forall i | 0 <= i < |r|
        ensures r[i].1 == LastCode(t, r[i].0)
      {
        if r[i].0 != last.1 {
          var j :| 0 <= j < |acc| && acc[j] == r[i];
        }
      }
      HasValueOfLast(t);
    }
  }

  /** The emojis of a table are those of all but its last entry, and the last
      entry's. */
  lemma HasValueOfLast(t: Table)
    requires |t| > 0
    ensures forall x :: HasValue(t, x) <==> HasValue(t[..|t| - 1], x) || x == t[|t| - 1].1
  {
    var p := t[..|t| - 1];
    forall x
      ensures HasValue(t, x) <==> HasValue(p, x) || x == t[|t| - 1].1
    {
      if HasValue(t, x) && x != t[|t| - 1].1 {
        var i :| 0 <= i < |t| && t[i].1 == x;
        assert p[i].1 == x;
      }
      if HasValue(p, x) {
        var i :| 0 <= i < |p| && p[i].1 == x;
        assert t[i].1 == x;
      }
    }
  }

  /** `convertToShortcodes`: every emoji to its flipped shortcode, in the
      flipped array's order. */
  function ConvertToShortcodes(t: Table, text: string): (r: string)
    ensures (forall i :: 0 <= i < |t| ==> !Contains(text, t[i].1)) ==> r == text
  {
    var flipped := Flipped(t);
    if forall i :: 0 <= i < |t| ==> !Contains(text, t[i].1) then
      FlipKeepsLastCode(t);
      assert forall i :: 0 <= i < |flipped| ==> !Contains(text, flipped[i].0) by {
        forall i | 0 <= i < |flipped|
          ensures !Contains(text, flipped[i].0)
        {
          assert HasKey(flipped, flipped[i].0);
        }
      }
      ReplaceEachAbsent(flipped, text);
      text
    else
      ReplaceEach(flipped, text)
  }

  /** Two shortcodes for one emoji: converting there and back yields the one
      declared later (':smile:' comes back as ':blush:'). */
  lemma SharedEmojiComesBackAsLaterCode(first: string, later: string, emoji: string)
    requires |first| > 0 && |emoji| > 0 && !Contains(emoji, later)
    ensures ConvertToShortcodes([(first, emoji), (later, emoji)], ConvertShortcodes([(first, emoji), (later, emoji)], first)) == later
  {
    var t := [(first, emoji), (later, emoji)];
    ForwardGivesEmoji(first, later, emoji);
    FlippedPairKeepsLater(first, later, emoji);
    ReplaceWhole(emoji, later);
    assert StartsWith(emoji, emoji);
    assert Contains(emoji, Flipped(t)[0].0);
    assert ReplaceEach([(emoji, later)], emoji) == ReplaceEach([], later);
  }

  lemma ForwardGivesEmoji(first: string, later: string, emoji: string)
    requires |first| > 0 && !Contains(emoji, later)
    ensures ConvertShortcodes([(first, emoji), (later, emoji)], first) == emoji
  {
    var t := [(first, emoji), (later, emoji)];
    ReplaceWhole(first, emoji);
    assert StartsWith(first, first);
    ReplaceAbsentIsIdentity(emoji, later, emoji);
    assert Contains(first, t[0].0);
    assert t[1..] == [(later, emoji)];
    assert ReplaceEach(t, first) == ReplaceEach([(later, emoji)], emoji);
    assert ReplaceEach([(later, emoji)], emoji) == ReplaceEach([], emoji);
  }

  lemma FlippedPairKeepsLater(first: string, later: string, emoji: string)
    ensures Flipped([(first, emoji), (later, emoji)]) == [(emoji, later)]
  {
    var t := [(first, emoji), (later, emoji)];
    assert t[..1] == [(first, emoji)];
    assert t[..1][..0] == [];
    assert Flipped(t[..1]) == Put([], emoji, first);
    assert Flipped(t) == Put([(emoji, first)], emoji, later);
  }

  /** A string replaced as a whole gives the replacement. */
  lemma ReplaceWhole(from: string, to: string)
    requires |from| > 0
    ensures ReplaceAll(from, from, to) == to
  {
    NoProperPrefixContains(from);
    assert [] + from[..|from| - 1] == from[..|from| - 1];
    ReplaceAtFirstOccurrence([], from, to, []);
    assert [] + from + [] == from;
  }

  /** A string shorter than `sub` never contains it. */
  lemma NoProperPrefixContains(sub: string)
    requires |sub| > 0
    ensures !Contains(sub[..|sub| - 1], sub)
  {
    ContainsAt(sub[..|sub| - 1], sub);
  }

  // ---------------------------------------------------------------------------
  // Nothing left to convert
  // ---------------------------------------------------------------------------

  /** No character of `a` occurs in `b`. */
  predicate Disjoint(a: string, b: string) {
    forall i, j :: 0 <= i < |a| && 0 <= j < |b| ==> a[i] != b[j]
  }

  /** An occurrence of `w` that cannot start inside `a` lies in `b`. */
  lemma {:induction false} ContainsPastPrefix(a: string, b: string, w: string)
    requires |w| > 0 && forall j :: 0 <= j < |a| ==> a[j] != w[0]
    requires Contains(a + b, w)
    ensures Contains(b, w)
    decreases |a|
  {
    if |a| == 0 {
      assert a + b == b;
    } else {
      assert !StartsWith(a + b, w) by {
        assert (a + b)[0] == a[0];
      }
      assert (a + b)[1..] == a[1..] + b;
      ContainsPastPrefix(a[1..], b, w);
    }
  }

  /** What occurs in a suffix occurs in the whole. */
  lemma {:induction false} ContainsSuffix(s: string, k: nat, w: string)
    requires k <= |s| && Contains(s[k..], w)
    ensures Contains(s, w)
    decreases k
  {
    if k > 0 {
      assert s[k..] == s[1..][k - 1..];
      ContainsSuffix(s[1..], k - 1, w);
    }
  }

  /** A prefix of the result made of characters the replacement does not use
      was copied from the input: no replacement happened inside it. */
  lemma {:induction false} UntouchedPrefix(s: string, from: string, to: string, w: string)
    requires |from| > 0 && |to| > 0 && Disjoint(w, to)
    requires StartsWith(ReplaceAll(s, from, to), w)
    ensures StartsWith(s, w)
    decreases |s|
  {
    var r := ReplaceAll(s, from, to);
    if |w| > 0 {
      assert r[0] == r[..|w|][0] == w[0];
      if |s| == 0 {
        assert false;
      } else if StartsWith(s, from) {
        assert false;
      } else {
        var rest := ReplaceAll(s[1..], from, to);
        assert r == [s[0]] + rest;
        assert rest[..|w| - 1] == r[..|w|][1..];
        assert forall i :: 0 <= i < |w| - 1 ==> w[1..][i] == w[i + 1];
        UntouchedPrefix(s[1..], from, to, w[1..]);
        assert s[..|w|] == [s[0]] + s[1..][..|w| - 1];
      }
    }
  }

  /** Replacing `from` by a non-empty `to` that shares no character with it
      leaves no occurrence of `from`. */
  lemma {:induction false} NoneLeft(s: string, from: string, to: string)
    requires |from| > 0 && |to| > 0 && Disjoint(from, to)
    ensures !Contains(ReplaceAll(s, from, to), from)
    decreases |s|
  {
    var r := ReplaceAll(s, from, to);
    if |s| == 0 {
      assert r == s;
    } else if StartsWith(s, from) {
      var rest := ReplaceAll(s[|from|..], from, to);
      NoneLeft(s[|from|..], from, to);
      assert r == to + rest;
      if Contains(r, from) {
        ContainsPastPrefix(to, rest, from);
      }
    } else {
      var rest := ReplaceAll(s[1..], from, to);
      NoneLeft(s[1..], from, to);
      assert r == [s[0]] + rest && r[1..] == rest;
      if StartsWith(r, from) {
        UntouchedPrefix(s, from, to, from);
      }
    }
  }

  /** Such a replacement creates no occurrence of a string `w` that shares no
      character with `to` and did not occur before. */
  lemma {:induction false} NoNewOccurrence(s: string, from: string, to: string, w: string)
    requires |from| > 0 && |to| > 0 && Disjoint(w, to)
    requires !Contains(s, w)
    ensures !Contains(ReplaceAll(s, from, to), w)
    decreases |s|
  {
    var r := ReplaceAll(s, from, to);
    assert StartsWith(s, w[..0]);
    if |s| == 0 {
      assert r == s;
    } else if StartsWith(s, from) {
      var rest := ReplaceAll(s[|from|..], from, to);
      if Contains(s[|from|..], w) {
        ContainsSuffix(s, |from|, w);
      }
      NoNewOccurrence(s[|from|..], from, to, w);
      assert r == to + rest;
      if Contains(r, w) {
        ContainsPastPrefix(to, rest, w);
      }
    } else {
      var rest := ReplaceAll(s[1..], from, to);
      NoNewOccurrence(s[1..], from, to, w);
      assert r == [s[0]] + rest && r[1..] == rest;
      if StartsWith(r, w) {
        UntouchedPrefix(s, from, to, w);
      }
    }
  }

  /** Later replacements of the fold keep an absent `w` absent. */
  lemma {:induction false} EachLeavesNone(pairs: seq<(string, string)>, x: string, w: string)
    requires forall j :: 0 <= j < |pairs| ==> |pairs[j].0| > 0 && |pairs[j].1| > 0 && Disjoint(w, pairs[j].1)
    requires !Contains(x, w)
    ensures !Contains(ReplaceEach(pairs, x), w)
    decreases |pairs|
  {
    if |pairs| > 0 {
      NoNewOccurrence(x, pairs[0].0, pairs[0].1, w);
      EachLeavesNone(pairs[1..], ReplaceAll(x, pairs[0].0, pairs[0].1), w);
    }
  }

  /** The fold over pairs whose search strings share no character with any
      replacement leaves none of the search strings in the text. */
  lemma {:induction false} EachClearsAll(pairs: seq<(string, string)>, text: string)
    requires forall j :: 0 <= j < |pairs| ==> |pairs[j].0| > 0 && |pairs[j].1| > 0
    requires forall i, j :: 0 <= i < |pairs| && 0 <= j < |pairs| ==> Disjoint(pairs[i].0, pairs[j].1)
    ensures forall i :: 0 <= i < |pairs| ==> !Contains(ReplaceEach(pairs, text), pairs[i].0)
    decreases |pairs|
  {
    if |pairs| > 0 {
      var x := ReplaceAll(text, pairs[0].0, pairs[0].1);
      EachClearsAll(pairs[1..], x);
      NoneLeft(text, pairs[0].0, pairs[0].1);
      EachLeavesNone(pairs[1..], x, pairs[0].0);
      forall i | 0 <= i < |pairs|
        ensures !Contains(ReplaceEach(pairs, text), pairs[i].0)
      {
        if i > 0 {
          assert pairs[i] == pairs[1..][i - 1];
        }
      }
    }
  }

  /** A table whose shortcodes and emojis are non-empty and share no
      character: shortcodes are ASCII, emojis are not. */
  predicate Separated(t: Table) {
    (forall i :: 0 <= i < |t| ==> |t[i].0| > 0 && |t[i].1| > 0) &&
    (forall i, j :: 0 <= i < |t| && 0 <= j < |t| ==> Disjoint(t[i].0, t[j].1))
  }

  /** Every occurrence of every shortcode is converted: none is left in the
      result, whatever the text. */
  lemma NoShortcodeLeft(t: Table, text: string)
    requires Separated(t)
    ensures forall i :: 0 <= i < |t| ==> !Contains(ConvertShortcodes(t, text), t[i].0)
  {
    EachClearsAll(t, text);
  }

  /** The shortcode declared last for an emoji of the table is one of its
      shortcodes for that emoji. */
  lemma {:induction false} LastCodeIsCode(t: Table, e: string) returns (k: nat)
    requires HasValue(t, e)
    ensures k < |t| && t[k].0 == LastCode(t, e) && t[k].1 == e
    decreases |t|
  {
    if t[|t| - 1].1 == e {
      k := |t| - 1;
    } else {
      var p := t[..|t| - 1];
      var w :| 0 <= w < |t| && t[w].1 == e;
      assert p[w].1 == e;
      k := LastCodeIsCode(p, e);
      assert t[k] == p[k];
    }
  }

  /** Every occurrence of every emoji of the table is converted back: none is
      left in the result, whatever the text. */
  lemma NoEmojiLeft(t: Table, text: string)
    requires Separated(t)
    ensures forall i :: 0 <= i < |t| ==> !Contains(ConvertToShortcodes(t, text), t[i].1)
  {
    var f := Flipped(t);
    FlipKeepsLastCode(t);
    forall i, j | 0 <= i < |f| && 0 <= j < |f|
      ensures |f[i].0| > 0 && |f[i].1| > 0 && Disjoint(f[i].0, f[j].1)
    {
      assert HasKey(f, f[i].0) && HasKey(f, f[j].0);
      var a := LastCodeIsCode(t, f[i].0);
      var b := LastCodeIsCode(t, f[j].0);
      assert Disjoint(t[b].0, t[a].1);
    }
    EachClearsAll(f, text);
    forall i | 0 <= i < |t|
      ensures !Contains(ConvertToShortcodes(t, text), t[i].1)
    {
      assert HasValue(t, t[i].1);
      var m :| 0 <= m < |f| && f[m].0 == t[i].1;
    }
  }

  /** Neither hypothesis can be dropped: an empty replacement joins the text
      around it, and a replacement sharing a character with the shortcode
      completes a new occurrence. */
  lemma HypothesesNeeded()
    ensures Contains(ReplaceAll("aabb", "ab", ""), "ab")
    ensures Contains(ReplaceAll("::x::", ":x:", "x"), ":x:")
  {
    assert ReplaceAll("aabb", "ab", "") == "ab";
    assert ReplaceAll("::x::", ":x:", "x") == ":x:";
  }

  // ---------------------------------------------------------------------------
  // Available emojis
  // ---------------------------------------------------------------------------

  /** `array_unique`: the first occurrence of each value, in order. */
  function Unique(s: seq<string>): (r: seq<string>)
    ensures forall x :: x in r <==> x in s
    ensures forall i, j :: 0 <= i < j < |r| ==> r[i] != r[j]
    decreases |s|
  {
    if |s| == 0 then []
    else
      var p := Unique(s[..|s| - 1]);
      assert forall x :: x in s <==> x in s[..|s| - 1] || x == s[|s| - 1] by {
        assert s == s[..|s| - 1] + [s[|s| - 1]];
      }
      if s[|s| - 1] in p then p else p + [s[|s| - 1]]
  }

  /** `getAvailableEmojis`: every emoji of the table, once each. */
  function AvailableEmojis(t: Table): (r: seq<string>)
    ensures forall e :: e in r <==> HasValue(t, e)
    ensures forall i, j :: 0 <= i < j < |r| ==> r[i] != r[j]
  {
    var values := seq(|t|, i requires 0 <= i < |t| => t[i].1);
    assert forall e :: e in values <==> HasValue(t, e) by {
      forall e | HasValue(t, e) ensures e in values {
        var i :| 0 <= i < |t| && t[i].1 == e;
        assert values[i] == e;
      }
    }
    Unique(values)
  }

  // ---------------------------------------------------------------------------
  // Validity
  // ---------------------------------------------------------------------------

  /** The character class of the fallback regular expression, interval by
      interval in the order written. */
  predicate InEmojiRange(c: char) {
    var n := c as int;
    || 0x1F600 <= n <= 0x1F64F
    || 0x1F300 <= n <= 0x1F5FF
    || 0x1F680 <= n <= 0x1F6FF
    || 0x1F1E0 <= n <= 0x1F1FF
    || 0x2600 <= n <= 0x26FF
    || 0x2700 <= n <= 0x27BF
    || 0xFE00 <= n <= 0xFE0F
    || 0x1F900 <= n <= 0x1F9FF
    || 0x1FA00 <= n <= 0x1FA6F
    || 0x1FA70 <= n <= 0x1FAFF
    || 0x231A <= n <= 0x231B
    || 0x23E9 <= n <= 0x23F3
    || 0x23F8 <= n <= 0x23FA
    || 0x25AA <= n <= 0x25AB
    || n == 0x25B6
    || n == 0x25C0
    || 0x25FB <= n <= 0x25FE
    || 0x2614 <= n <= 0x2615
    || 0x2648 <= n <= 0x2653
    || n == 0x267F
    || n == 0x2693
    || n == 0x26A1
    || 0x26AA <= n <= 0x26AB
    || 0x26BD <= n <= 0x26BE
    || 0x26C4 <= n <= 0x26C5
    || n == 0x26CE
    || n == 0x26D4
    || n == 0x26EA
    || 0x26F2 <= n <= 0x26F3
    || n == 0x26F5
    || n == 0x26FA
    || n == 0x26FD
    || n == 0x2702
    || n == 0x2705
    || 0x2708 <= n <= 0x270D
    || n == 0x270F
    || n == 0x2712
    || n == 0x2714
    || n == 0x2716
    || n == 0x271D
    || n == 0x2721
    || n == 0x2728
    || 0x2733 <= n <= 0x2734
    || n == 0x2744
    || n == 0x2747
    || n == 0x274C
    || n == 0x274E
    || 0x2753 <= n <= 0x2755
    || n == 0x2757
    || 0x2763 <= n <= 0x2764
    || 0x2795 <= n <= 0x2797
    || n == 0x27A1
    || n == 0x27B0
    || n == 0x27BF
    || 0x2934 <= n <= 0x2935
    || 0x2B05 <= n <= 0x2B07
    || 0x2B1B <= n <= 0x2B1C
    || n == 0x2B50
    || n == 0x2B55
    || n == 0x3030
    || n == 0x303D
    || n == 0x3297
    || n == 0x3299
  }

  /** `isValidEmoji`: a shortcode, an emoji of the table, or any string with
      at least one code point in the ranges (the pattern is not anchored). */
  predicate IsValidEmoji(t: Table, s: string) {
    HasKey(t, s) || HasValue(t, s) || exists i :: 0 <= i < |s| && InEmojiRange(s[i])
  }

  /** Both sides of every table entry are valid. */
  lemma TableEntriesValid(t: Table, i: nat)
    requires i < |t|
    ensures IsValidEmoji(t, t[i].0) && IsValidEmoji(t, t[i].1)
  {
  }

  /** No ASCII character lies in the ranges. */
  lemma AsciiOutsideRanges(c: char)
    requires c as int < 128
    ensures !InEmojiRange(c)
  {
  }

  /** Plain ASCII text is valid only as a table entry, while one emoji code
      point anywhere makes a string valid whatever surrounds it. */
  lemma ValidityOfMixedText(t: Table, text: string, c: char, before: string, after: string)
    requires forall i :: 0 <= i < |text| ==> text[i] as int < 128
    requires InEmojiRange(c)
    ensures IsValidEmoji(t, text) <==> HasKey(t, text) || HasValue(t, text)
    ensures IsValidEmoji(t, before + [c] + after)
  {
    forall i | 0 <= i < |text| ensures !InEmojiRange(text[i]) {
      AsciiOutsideRanges(text[i]);
    }
    assert (before + [c] + after)[|before|] == c;
  }

  // ---------------------------------------------------------------------------
  // Categories
  // ---------------------------------------------------------------------------

  /** `getShortcodesByCategory`. */
  const ShortcodesByCategory: seq<(string, seq<string>)> := [
    ("smileys", [":smile:", ":grin:", ":joy:", ":wink:", ":heart_eyes:",
                 ":thinking:", ":unamused:", ":sunglasses:", ":cry:", ":angry:"]),
    ("gestures", [":thumbsup:", ":thumbsdown:", ":ok_hand:", ":clap:", ":wave:",
                  ":muscle:", ":pray:", ":v:", ":fist:"]),
    ("hearts", [":heart:", ":orange_heart:", ":yellow_heart:", ":green_heart:",
                ":blue_heart:", ":purple_heart:", ":broken_heart:"]),
    ("symbols", [":check:", ":x:", ":warning:", ":fire:", ":sparkles:",
                 ":star:", ":zap:", ":question:", ":exclamation:"]),
    ("food", [":coffee:", ":pizza:", ":hamburger:", ":beer:", ":cake:",
              ":apple:", ":banana:", ":cookie:"]),
    ("objects", [":computer:", ":phone:", ":email:", ":lock:", ":key:",
                 ":bulb:", ":wrench:", ":gear:"])]
}
