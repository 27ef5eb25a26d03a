/** Palette ordering (colorSort.js): luminance from the packed RGB value of a
    hex string, sorting by luminance with the two-row split and re-interleave,
    and the desaturated-first grouping of the hue sort. */
module ColorSort {
  import opened Js
  import opened Pixels

  /** The three colour channels getLuminance extracts. */
  datatype Rgb = Rgb(r: nat, g: nat, b: nat)

  /** getLuminance's channels: parseInt of everything after the first
      character, then bits 16-23, 8-15 and 0-7 of its 32-bit pattern. */
  function Channels(hex: string): (c: Rgb)
    ensures c.r < 256 && c.g < 256 && c.b < 256
  {
    Unpack(Int32Bits(ParseIntHex(Slice(hex, 1, |hex|))))
  }

  /** (rgb >> 16) & 255, (rgb >> 8) & 255 and rgb & 255 on a 32-bit pattern. */
  function Unpack(rgb: nat): (c: Rgb)
    ensures c.r < 256 && c.g < 256 && c.b < 256
  {
    Rgb((rgb / 65536) % 256, (rgb / 256) % 256, rgb % 256)
  }

  /** getLuminance: 0.299 R + 0.587 G + 0.114 B, in exact arithmetic; the
      result lies between 0 and 255. */
  function Luminance(hex: string): (l: real)
    ensures 0.0 <= l <= 255.0
  {
    var c := Channels(hex);
    (299 * c.r + 587 * c.g + 114 * c.b) as real / 1000.0
  }

  /** n = q * d + r with 0 <= r < d fixes n / d and n % d. */
  lemma DivModUnique(n: nat, d: nat, q: nat, r: nat)
    requires 0 <= r < d && n == q * d + r
    ensures n / d == q && n % d == r
  {
    var q', r' := n / d, n % d;
    assert n == q' * d + r' && 0 <= r' < d;
    if q' > q {
      MulMonotone(q + 1, q', d);
      assert false;
    } else if q' < q {
      MulMonotone(q' + 1, q, d);
      assert false;
    }
  }

  /** The digits of a + b read as a number: a shifted left by b's digits. */
  lemma {:induction false} HexValueAppend(a: string, b: string)
    requires AllHex(a) && AllHex(b)
    ensures AllHex(a + b)
    ensures HexValue(a + b) == HexValue(a) * Pow16(|b|) + HexValue(b)
    decreases |b|
  {
    assert forall i | 0 <= i < |a + b| :: (a + b)[i] == if i < |a| then a[i] else b[i - |a|];
    if b != [] {
      var b' := b[..|b| - 1];
      assert (a + b)[..|a + b| - 1] == a + b' && (a + b)[|a + b| - 1] == b[|b| - 1];
      HexValueAppend(a, b');
      var x: int, p: int, y: int, d: int := HexValue(a), Pow16(|b'|), HexValue(b'), HexDigitValue(b[|b| - 1]);
      assert HexValue(a + b) == (x * p + y) * 16 + d;
      ShiftDigit(x, p, y);
      assert HexValue(b) == y * 16 + d && Pow16(|b|) == p * 16;
    } else {
      assert a + b == a;
    }
  }

  /** Shifting a * p + y one hex digit left. */
  lemma ShiftDigit(x: int, p: int, y: int)
    ensures (x * p + y) * 16 == x * (p * 16) + y * 16
  {
  }

  /** Three channels below 256 packed as 0xRRGGBB fit in 32 bits and come
      back out under the shifts and masks. */
  lemma UnpackChannels(v: nat, r: nat, g: nat, b: nat)
    requires r < 256 && g < 256 && b < 256 && v == r * 65536 + g * 256 + b
    ensures v < 0x1_0000_0000 && Unpack(v) == Rgb(r, g, b)
  {
    var lo, hi := g * 256 + b, r * 256 + g;
    DivModUnique(v, 65536, r, lo);
    DivModUnique(r, 256, 0, r);
    DivModUnique(v, 256, hi, b);
    DivModUnique(hi, 256, r, g);
  }

  /** Six hex digits read as one number: the three pairs as base-256 digits. */
  lemma PairsValue(rr: string, gg: string, bb: string)
    requires AllHex(rr) && AllHex(gg) && AllHex(bb) && |gg| == 2 && |bb| == 2
    ensures AllHex(rr + gg + bb)
    ensures HexValue(rr + gg + bb) == HexValue(rr) * 65536 + HexValue(gg) * 256 + HexValue(bb)
  {
    HexValueAppend(rr, gg);
    HexValueAppend(rr + gg, bb);
    assert Pow16(2) == 256;
  }

  /** Two hex digits make a value below 256. */
  lemma PairBound(s: string)
    requires AllHex(s) && |s| == 2
    ensures HexValue(s) < 256
  {
    assert Pow16(2) == 256;
  }

  /** A value that fits in 32 bits is its own 32-bit pattern. */
  lemma SmallBits(v: nat)
    requires v < 0x1_0000_0000
    ensures Int32Bits(Int(v)) == v
  {
    DivModUnique(v, 0x1_0000_0000, 0, v);
  }

  /** parseInt reads the six digits after the '#' of #RRGGBB. */
  lemma ParsedDigits(hex: string)
    requires IsHexColor(hex)
    ensures AllHex(hex[1..3] + hex[3..5] + hex[5..7])
    ensures ParseIntHex(Slice(hex, 1, |hex|)) == Int(HexValue(hex[1..3] + hex[3..5] + hex[5..7]))
  {
    HexColorPairs(hex);
    var digits := hex[1..3] + hex[3..5] + hex[5..7];
    assert Slice(hex, 1, |hex|) == digits;
    ParseIntHexDigits(digits);
  }

  /** parseInt of the six digits of #RRGGBB is 0xRRGGBB, within 32 bits. */
  lemma PackedValue(hex: string)
    requires IsHexColor(hex)
    ensures AllHex(hex[1..3]) && AllHex(hex[3..5]) && AllHex(hex[5..7])
    ensures HexValue(hex[1..3]) < 256 && HexValue(hex[3..5]) < 256 && HexValue(hex[5..7]) < 256
    ensures Int32Bits(ParseIntHex(Slice(hex, 1, |hex|)))
         == HexValue(hex[1..3]) * 65536 + HexValue(hex[3..5]) * 256 + HexValue(hex[5..7])
  {
    HexColorPairs(hex);
    var rr, gg, bb := hex[1..3], hex[3..5], hex[5..7];
    PairBound(rr);
    PairBound(gg);
    PairBound(bb);
    PairsValue(rr, gg, bb);
    ParsedDigits(hex);
    var r, g, b := HexValue(rr), HexValue(gg), HexValue(bb);
    var v := r * 65536 + g * 256 + b;
    UnpackChannels(v, r, g, b);
    assert HexValue(rr + gg + bb) == v;
    SmallBits(v);
  }

  /** On a #RRGGBB string getLuminance's channels are hexToRgba's. */
  lemma ChannelsOfHexColor(hex: string)
    requires IsHexColor(hex)
    ensures var c := HexToRgba(hex);
      Channels(hex) == Rgb(c.r.v, c.g.v, c.b.v)
  {
    PackedValue(hex);
    var r, g, b := HexValue(hex[1..3]), HexValue(hex[3..5]), HexValue(hex[5..7]);
    var v := Int32Bits(ParseIntHex(Slice(hex, 1, |hex|)));
    UnpackChannels(v, r, g, b);
    assert Channels(hex) == Unpack(v);
  }

  /** Ascending by key. */
  predicate SortedBy(s: seq<string>, key: string -> real) {
    forall i, j | 0 <= i < j < |s| :: key(s[i]) <= key(s[j])
  }

  /** x placed before the first element whose key is not below x's. */
  function Insert(x: string, s: seq<string>, key: string -> real): (r: seq<string>)
    requires SortedBy(s, key)
    ensures SortedBy(r, key) && multiset(r) == multiset(s) + multiset{x}
    ensures |r| == |s| + 1 && (r[0] == x || (s != [] && r[0] == s[0]))
  {
    if s == [] || key(x) <= key(s[0]) then
      ConsSorted(x, s, key);
      [x] + s
    else
      var t := Insert(x, s[1..], key);
      assert s == [s[0]] + s[1..];
      ConsSorted(s[0], t, key);
      [s[0]] + t
  }

  /** A sorted list stays sorted under a head whose key is not above its first. */
  lemma ConsSorted(x: string, t: seq<string>, key: string -> real)
    requires SortedBy(t, key) && (t == [] || key(x) <= key(t[0]))
    ensures SortedBy([x] + t, key)
  {
    var r := [x] + t;
    forall i, j | 0 <= i < j < |r| ensures key(r[i]) <= key(r[j]) {
      assert r[j] == t[j - 1];
      if i > 0 {
        assert r[i] == t[i - 1];
      } else if j > 1 {
        assert key(t[0]) <= key(t[j - 1]);
      }
    }
  }

  /** Array.prototype.sort with the comparator key(a) - key(b): ascending by
      key, a permutation of the input. Equal keys keep their input order. */
  function SortBy(s: seq<string>, key: string -> real): (r: seq<string>)
    ensures SortedBy(r, key) && multiset(r) == multiset(s) && |r| == |s|
  {
    if s == [] then [] else
      assert s == [s[0]] + s[1..];
      Insert(s[0], SortBy(s[1..], key), key)
  }

  /** The entries at even positions, which forEach pushes to left. */
  function Evens(xs: seq<string>): (r: seq<string>)
    ensures |r| == (|xs| + 1) / 2
    decreases |xs|
  {
    if xs == [] then [] else [xs[0]] + Odds(xs[1..])
  }

  /** The entries at odd positions, which forEach pushes to right. */
  function Odds(xs: seq<string>): (r: seq<string>)
    ensures |r| == |xs| / 2
    decreases |xs|
  {
    if xs == [] then [] else Evens(xs[1..])
  }

  /** Entry k of left is entry 2k of the list and entry k of right is entry 2k + 1. */
  lemma {:induction false} EvensOddsAt(xs: seq<string>)
    ensures forall k | 0 <= k < |Evens(xs)| :: Evens(xs)[k] == xs[2 * k]
    ensures forall k | 0 <= k < |Odds(xs)| :: Odds(xs)[k] == xs[2 * k + 1]
    decreases |xs|
  {
    if xs != [] {
      var t := xs[1..];
      EvensOddsAt(t);
      forall k | 0 <= k < |Evens(xs)| ensures Evens(xs)[k] == xs[2 * k] {
        if k > 0 {
          assert Evens(xs)[k] == Odds(t)[k - 1] == t[2 * (k - 1) + 1];
        }
      }
      forall k | 0 <= k < |Odds(xs)| ensures Odds(xs)[k] == xs[2 * k + 1] {
        assert Odds(xs)[k] == Evens(t)[k] == t[2 * k];
      }
    }
  }

  /** The interleaving loop: left[i] then right[i] for each i, and the rest of
      the longer list once the shorter one runs out. */
  function Interleave(left: seq<string>, right: seq<string>): (r: seq<string>)
    ensures |r| == |left| + |right|
  {
    if left == [] then right
    else if right == [] then left
    else [left[0], right[0]] + Interleave(left[1..], right[1..])
  }

  /** The interleaving holds every entry of both rows, each as often. */
  lemma {:induction false} InterleaveKeepsEntries(left: seq<string>, right: seq<string>)
    ensures multiset(Interleave(left, right)) == multiset(left) + multiset(right)
    decreases |left|
  {
    if left != [] && right != [] {
      var l', r' := left[1..], right[1..];
      InterleaveKeepsEntries(l', r');
      ConsMultiset(left);
      ConsMultiset(right);
      assert Interleave(left, right) == [left[0]] + ([right[0]] + Interleave(l', r'));
      Shuffle(left[0], right[0], multiset(l'), multiset(r'));
    }
  }

  /** Moving the second row's first entry next to the rest of that row. */
  lemma Shuffle(a: string, b: string, x: multiset<string>, y: multiset<string>)
    ensures multiset{a} + (multiset{b} + (x + y)) == (multiset{a} + x) + (multiset{b} + y)
  {
  }

  /** The first entry and the rest together. */
  lemma ConsMultiset(xs: seq<string>)
    requires xs != []
    ensures multiset(xs) == multiset{xs[0]} + multiset(xs[1..])
  {
    assert xs == [xs[0]] + xs[1..];
  }

  /** The elements from position i on, none when i is past the end. */
  function Drop(xs: seq<string>, i: nat): (r: seq<string>)
    ensures i <= |xs| ==> r == xs[i..]
    ensures i >= |xs| ==> r == []
  {
    if i <= |xs| then xs[i..] else []
  }

  /** Splitting the sorted list by position parity and interleaving the two
      halves gives back the sorted list. */
  lemma {:induction false} InterleaveEvensOdds(xs: seq<string>)
    ensures Interleave(Evens(xs), Odds(xs)) == xs
    decreases |xs|
  {
    if |xs| >= 2 {
      var t := xs[1..];
      assert t[1..] == xs[2..] && t[0] == xs[1];
      var e, o := Evens(xs), Odds(xs);
      assert e == [xs[0]] + Odds(t) && Odds(t) == Evens(xs[2..]);
      assert o == Evens(t) && Evens(t) == [t[0]] + Odds(t[1..]);
      assert e[1..] == Evens(xs[2..]) && o[1..] == Odds(xs[2..]);
      InterleaveEvensOdds(xs[2..]);
      assert xs == [xs[0], xs[1]] + xs[2..];
    } else if |xs| == 1 {
      assert Evens(xs) == xs;
    }
  }

  /** One more entry after the list goes to left when its position is even
      and to right when it is odd. */
  lemma {:induction false} EvensOddsSnoc(p: seq<string>, x: string)
    ensures Evens(p + [x]) == if |p| % 2 == 0 then Evens(p) + [x] else Evens(p)
    ensures Odds(p + [x]) == if |p| % 2 == 1 then Odds(p) + [x] else Odds(p)
    decreases |p|
  {
    if p == [] {
      assert [x][1..] == [];
    } else {
      var t := p[1..];
      assert (p + [x])[1..] == t + [x] && (p + [x])[0] == p[0];
      EvensOddsSnoc(t, x);
      if |p| % 2 == 0 {
        assert [p[0]] + (Odds(t) + [x]) == [p[0]] + Odds(t) + [x];
      }
    }
  }

  /** One round of the interleaving loop. */
  lemma InterleaveStep(left: seq<string>, right: seq<string>, i: nat)
    requires i < |left| || i < |right|
    ensures Interleave(Drop(left, i), Drop(right, i))
         == (if i < |left| then [left[i]] else []) + (if i < |right| then [right[i]] else [])
          + Interleave(Drop(left, i + 1), Drop(right, i + 1))
  {
    var l, r := Drop(left, i), Drop(right, i);
    var l', r' := Drop(left, i + 1), Drop(right, i + 1);
    if i < |left| && i < |right| {
      assert l[1..] == l' && r[1..] == r';
      assert Interleave(l, r) == [l[0], r[0]] + Interleave(l', r');
    } else if i < |left| {
      assert r == [] && r' == [];
      assert l == [left[i]] + l';
    } else {
      assert l == [] && l' == [];
      assert r == [right[i]] + r';
    }
  }

  /** The forEach that deals the sorted colours into two rows by position. */
  method SplitRows(sorted: seq<string>) returns (left: seq<string>, right: seq<string>)
    ensures left == Evens(sorted) && right == Odds(sorted)
  {
    left, right := [], [];
    for i := 0 to |sorted|
      invariant left == Evens(sorted[..i]) && right == Odds(sorted[..i])
    {
      assert sorted[..i + 1] == sorted[..i] + [sorted[i]];
      EvensOddsSnoc(sorted[..i], sorted[i]);
      if i % 2 == 0 {
        left := left + [sorted[i]];
      } else {
        right := right + [sorted[i]];
      }
    }
    assert sorted[..|sorted|] == sorted;
  }

  /** One round of the interleaving loop keeps its invariant: what has been
      pushed, followed by the interleaving of what is left, is the whole. */
  lemma RoundDone(left: seq<string>, right: seq<string>, i: nat, before: seq<string>, after: seq<string>)
    requires i < |left| || i < |right|
    requires before + Interleave(Drop(left, i), Drop(right, i)) == Interleave(left, right)
    requires after == before + (if i < |left| then [left[i]] else []) + (if i < |right| then [right[i]] else [])
    ensures after + Interleave(Drop(left, i + 1), Drop(right, i + 1)) == Interleave(left, right)
  {
    var l1: seq<string> := if i < |left| then [left[i]] else [];
    var r1: seq<string> := if i < |right| then [right[i]] else [];
    var rest := Interleave(Drop(left, i + 1), Drop(right, i + 1));
    InterleaveStep(left, right, i);
    Regroup(before, l1, r1, rest);
  }

  /** Concatenation regroups freely. */
  lemma Regroup(a: seq<string>, b: seq<string>, c: seq<string>, d: seq<string>)
    ensures a + b + c + d == a + (b + c + d)
  {
  }

  /** The for loop that interleaves the two rows back into one list. */
  method InterleaveRows(left: seq<string>, right: seq<string>) returns (result: seq<string>)
    ensures result == Interleave(left, right)
  {
    result := [];
    var rounds := if |left| > |right| then |left| else |right|;
    for i := 0 to rounds
      invariant result + Interleave(Drop(left, i), Drop(right, i)) == Interleave(left, right)
    {
      ghost var before := result;
      if i < |left| {
        result := result + [left[i]];
      }
      if i < |right| {
        result := result + [right[i]];
      }
      RoundDone(left, right, i, before, result);
    }
  }

  /** sortColorsByLuminance: the colours ordered from dark to light. */
  method SortColorsByLuminance(colors: seq<string>) returns (result: seq<string>)
    ensures |colors| == 0 ==> result == colors
    ensures result == SortBy(colors, Luminance)
    ensures multiset(result) == multiset(colors)
    ensures forall i, j | 0 <= i < j < |result| :: Luminance(result[i]) <= Luminance(result[j])
  {
    if |colors| == 0 {
      return colors;
    }
    var sorted := SortBy(colors, Luminance);
    var left, right := SplitRows(sorted);
    result := InterleaveRows(left, right);
    InterleaveEvensOdds(sorted);
  }

  /** What hexToHSL gives: hue in degrees, saturation and lightness in percent. */
  datatype Hsl = Hsl(h: real, s: real, l: real)

  /** SATURATION_THRESHOLD */
  const SaturationThreshold: real := 30.0

  /** The colours below the saturation threshold, in input order. */
  function Desaturated(colors: seq<string>, hsl: string -> Hsl): (r: seq<string>)
    ensures forall k | 0 <= k < |r| :: hsl(r[k]).s < SaturationThreshold
    ensures |r| <= |colors|
  {
    if colors == [] then []
    else
      var last := colors[|colors| - 1];
      Desaturated(colors[..|colors| - 1], hsl) + if hsl(last).s < SaturationThreshold then [last] else []
  }

  /** The other colours, in input order. */
  function Saturated(colors: seq<string>, hsl: string -> Hsl): (r: seq<string>)
    ensures forall k | 0 <= k < |r| :: hsl(r[k]).s >= SaturationThreshold
    ensures |r| <= |colors|
  {
    if colors == [] then []
    else
      var last := colors[|colors| - 1];
      Saturated(colors[..|colors| - 1], hsl) + if hsl(last).s < SaturationThreshold then [] else [last]
  }

  /** Every colour lands in exactly one of the two groups. */
  lemma {:induction false} PartitionIsPermutation(colors: seq<string>, hsl: string -> Hsl)
    ensures multiset(Desaturated(colors, hsl)) + multiset(Saturated(colors, hsl)) == multiset(colors)
    decreases |colors|
  {
    if colors != [] {
      var init := colors[..|colors| - 1];
      PartitionIsPermutation(init, hsl);
      assert colors == init + [colors[|colors| - 1]];
    }
  }

  /** The forEach that splits the colours at the saturation threshold. */
  method Partition(colors: seq<string>, hsl: string -> Hsl) returns (desaturated: seq<string>, saturated: seq<string>)
    ensures desaturated == Desaturated(colors, hsl) && saturated == Saturated(colors, hsl)
  {
    desaturated, saturated := [], [];
    for i := 0 to |colors|
      invariant desaturated == Desaturated(colors[..i], hsl)
      invariant saturated == Saturated(colors[..i], hsl)
    {
      assert colors[..i + 1][..i] == colors[..i];
      if hsl(colors[i]).s < SaturationThreshold {
        desaturated := desaturated + [colors[i]];
      } else {
        saturated := saturated + [colors[i]];
      }
    }
    assert colors[..|colors|] == colors;
  }

  /** sortColorsByHue without the ordering of the saturated group: the
      desaturated colours first, dark to light, then the saturated ones. */
  method SortColorsByHue(colors: seq<string>, hsl: string -> Hsl) returns (result: seq<string>)
    ensures |colors| == 0 ==> result == colors
    ensures result == SortBy(Desaturated(colors, hsl), c => hsl(c).l) + Saturated(colors, hsl)
    ensures multiset(result) == multiset(colors)
    ensures var k := |Desaturated(colors, hsl)|;
      && (forall i | 0 <= i < |result| :: hsl(result[i]).s < SaturationThreshold <==> i < k)
      && (forall i, j | 0 <= i < j < k :: hsl(result[i]).l <= hsl(result[j]).l)
  {
    if |colors| == 0 {
      return colors;
    }
    var desaturated, saturated := Partition(colors, hsl);
    var lightness := c => hsl(c).l;
    desaturated := SortBy(desaturated, lightness);
    result := desaturated + saturated;
    PartitionIsPermutation(colors, hsl);
    GroupsInOrder(desaturated, saturated, Desaturated(colors, hsl), hsl);
  }

  /** The sorted desaturated group followed by the saturated group: a colour
      is below the threshold exactly when it sits in the first part. */
  lemma GroupsInOrder(desaturated: seq<string>, saturated: seq<string>, group: seq<string>, hsl: string -> Hsl)
    requires multiset(desaturated) == multiset(group)
    requires forall k | 0 <= k < |group| :: hsl(group[k]).s < SaturationThreshold
    requires forall k | 0 <= k < |saturated| :: hsl(saturated[k]).s >= SaturationThreshold
    ensures forall i | 0 <= i < |desaturated + saturated| ::
      hsl((desaturated + saturated)[i]).s < SaturationThreshold <==> i < |desaturated|
  {
    var result := desaturated + saturated;
    forall i | 0 <= i < |result| ensures hsl(result[i]).s < SaturationThreshold <==> i < |desaturated| {
      if i < |desaturated| {
        assert result[i] == desaturated[i];
        assert desaturated[i] in multiset(group);
      } else {
        assert result[i] == saturated[i - |desaturated|];
      }
    }
  }
}
