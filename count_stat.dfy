/**
 * The connection statistics triple (`WebSocketCountStatVo`), three Java `int`s.
 * The datatype's field selectors are the getters.
 */
module CountStat {
  import Strings

  /** Java's 32-bit `int`. */
  newtype i32 = x: int | -0x8000_0000 <= x < 0x8000_0000

  const INT_MAX: int := 0x7fff_ffff

  /** A collection size as `ConcurrentHashMap.size()` reports it: capped at `Integer.MAX_VALUE`. */
  function SaturatedSize(n: nat): (r: i32)
    ensures 0 <= r as int <= n
    ensures r as int == n <==> n <= INT_MAX
    ensures n > INT_MAX ==> r as int == INT_MAX
  {
    if n <= INT_MAX then n as i32 else INT_MAX as i32
  }

  datatype WebSocketCountStatVo = WebSocketCountStatVo(channelsCount: i32, channelMapCount: i32, usersCount: i32)

  /** The no-argument constructor: every count keeps Java's default `0`. */
  function Empty(): (s: WebSocketCountStatVo)
    ensures s.channelsCount == 0 && s.channelMapCount == 0 && s.usersCount == 0
  {
    WebSocketCountStatVo(0, 0, 0)
  }

  /** The three-argument constructor: the counts in argument order. */
  function Create(channelsCount: i32, channelMapCount: i32, usersCount: i32): (s: WebSocketCountStatVo)
    ensures s.channelsCount == channelsCount && s.channelMapCount == channelMapCount && s.usersCount == usersCount
  {
    WebSocketCountStatVo(channelsCount, channelMapCount, usersCount)
  }

  function SetChannelsCount(s: WebSocketCountStatVo, v: i32): (r: WebSocketCountStatVo)
    ensures r.channelsCount == v
    ensures r.channelMapCount == s.channelMapCount && r.usersCount == s.usersCount
  {
    s.(channelsCount := v)
  }

  function SetChannelMapCount(s: WebSocketCountStatVo, v: i32): (r: WebSocketCountStatVo)
    ensures r.channelMapCount == v
    ensures r.channelsCount == s.channelsCount && r.usersCount == s.usersCount
  {
    s.(channelMapCount := v)
  }

  function SetUsersCount(s: WebSocketCountStatVo, v: i32): (r: WebSocketCountStatVo)
    ensures r.usersCount == v
    ensures r.channelsCount == s.channelsCount && r.channelMapCount == s.channelMapCount
  {
    s.(usersCount := v)
  }

  /** The labels `toString` writes before each count; the third is `userCount`, not named
      after its field `usersCount`. */
  const CHANNELS_LABEL: string := "WebSocketCountStatVo{channelsCount="
  const CHANNEL_MAP_LABEL: string := ", channelMapCount="
  const USERS_LABEL: string := ", userCount="

  /** Where each piece of a right-nested concatenation of seven pieces sits. */
  lemma Layout(p1: string, p2: string, p3: string, p4: string, p5: string, p6: string, p7: string)
    ensures var r := p1 + (p2 + (p3 + (p4 + (p5 + (p6 + p7)))));
            var i1 := |p1|;
            var i2 := i1 + |p2|;
            var i3 := i2 + |p3|;
            var i4 := i3 + |p4|;
            var i5 := i4 + |p5|;
            var i6 := i5 + |p6|;
            && |r| == i6 + |p7|
            && r[..i1] == p1 && r[i1..i2] == p2 && r[i2..i3] == p3 && r[i3..i4] == p4
            && r[i4..i5] == p5 && r[i5..i6] == p6 && r[i6..] == p7
  {
    var s6 := p6 + p7;
    var s5 := p5 + s6;
    var s4 := p4 + s5;
    var s3 := p3 + s4;
    var s2 := p2 + s3;
    var r := p1 + s2;
    assert r[|p1|..] == s2;
    assert s2[|p2|..] == s3;
    assert s3[|p3|..] == s4;
    assert s4[|p4|..] == s5;
    assert s5[|p5|..] == s6;
    assert s6[|p6|..] == p7;
  }

  /** `toString`, slice by slice: each label followed by the decimal rendering of its count,
      and a closing brace. */
  function ToString(s: WebSocketCountStatVo): (r: string)
    ensures var a, b, c := Strings.IntToString(s.channelsCount as int), Strings.IntToString(s.channelMapCount as int),
                           Strings.IntToString(s.usersCount as int);
            var i1 := |CHANNELS_LABEL|;
            var i2 := i1 + |a|;
            var i3 := i2 + |CHANNEL_MAP_LABEL|;
            var i4 := i3 + |b|;
            var i5 := i4 + |USERS_LABEL|;
            && |r| == i5 + |c| + 1
            && r[..i1] == CHANNELS_LABEL
            && r[i1..i2] == a
            && r[i2..i3] == CHANNEL_MAP_LABEL
            && r[i3..i4] == b
            && r[i4..i5] == USERS_LABEL
            && r[i5..|r| - 1] == c
            && r[|r| - 1] == '}'
  {
    var a := Strings.IntToString(s.channelsCount as int);
    var b := Strings.IntToString(s.channelMapCount as int);
    var c := Strings.IntToString(s.usersCount as int);
    Layout(CHANNELS_LABEL, a, CHANNEL_MAP_LABEL, b, USERS_LABEL, c, "}");
    CHANNELS_LABEL + (a + (CHANNEL_MAP_LABEL + (b + (USERS_LABEL + (c + "}")))))
  }

  /** The character at position `k` of `x + t`. */
  lemma CharAt(x: string, t: string, k: int)
    ensures 0 <= k < |x| ==> (x + t)[k] == x[k]
    ensures k == |x| && |t| > 0 ==> (x + t)[k] == t[0]
  {
  }

  /** Two texts free of `,` that are each followed by a `,` in the same string are the same text. */
  lemma RenderingsAligned(x: string, y: string, t: string, u: string)
    requires forall i :: 0 <= i < |x| ==> x[i] != ','
    requires forall i :: 0 <= i < |y| ==> y[i] != ','
    requires |t| > 0 && |u| > 0 && t[0] == ',' && u[0] == ','
    requires x + t == y + u
    ensures x == y
  {
    if |x| < |y| {
      CharAt(x, t, |x|);
      CharAt(y, u, |x|);
      assert false;
    } else if |y| < |x| {
      CharAt(x, t, |y|);
      CharAt(y, u, |y|);
      assert false;
    } else {
      assert x == (x + t)[..|x|];
    }
  }

  /** Peeling a label `tag` and a `,`-free rendering off two equal texts leaves equal remainders. */
  lemma PeelField(tag: string, x: string, restX: string, y: string, restY: string)
    requires forall i :: 0 <= i < |x| ==> x[i] != ','
    requires forall i :: 0 <= i < |y| ==> y[i] != ','
    requires |restX| > 0 && |restY| > 0 && restX[0] == ',' && restY[0] == ','
    requires tag + (x + restX) == tag + (y + restY)
    ensures x == y && restX == restY
  {
    assert x + restX == (tag + (x + restX))[|tag|..];
    assert y + restY == (tag + (y + restY))[|tag|..];
    RenderingsAligned(x, y, restX, restY);
    assert restX == (x + restX)[|x|..];
    assert restY == (y + restY)[|y|..];
  }

  /** The rendering loses nothing: two statistics that print alike are equal. */
  lemma ToStringInjective(s: WebSocketCountStatVo, t: WebSocketCountStatVo)
    requires ToString(s) == ToString(t)
    ensures s == t
  {
    var a, b, c := Strings.IntToString(s.channelsCount as int), Strings.IntToString(s.channelMapCount as int),
                   Strings.IntToString(s.usersCount as int);
    var a', b', c' := Strings.IntToString(t.channelsCount as int), Strings.IntToString(t.channelMapCount as int),
                      Strings.IntToString(t.usersCount as int);
    var tailS, tailT := USERS_LABEL + (c + "}"), USERS_LABEL + (c' + "}");
    var restS, restT := CHANNEL_MAP_LABEL + (b + tailS), CHANNEL_MAP_LABEL + (b' + tailT);
    assert CHANNEL_MAP_LABEL[0] == ',' && USERS_LABEL[0] == ',';
    Strings.IntToStringHasNoComma(s.channelsCount as int);
    Strings.IntToStringHasNoComma(t.channelsCount as int);
    PeelField(CHANNELS_LABEL, a, restS, a', restT);
    Strings.IntToStringHasNoComma(s.channelMapCount as int);
    Strings.IntToStringHasNoComma(t.channelMapCount as int);
    PeelField(CHANNEL_MAP_LABEL, b, tailS, b', tailT);
    assert c + "}" == tailS[|USERS_LABEL|..];
    assert c' + "}" == tailT[|USERS_LABEL|..];
    assert c == (c + "}")[..|c|];
    assert c' == (c' + "}")[..|c'|];
    Strings.IntToStringRoundTrip(s.channelsCount as int);
    Strings.IntToStringRoundTrip(t.channelsCount as int);
    Strings.IntToStringRoundTrip(s.channelMapCount as int);
    Strings.IntToStringRoundTrip(t.channelMapCount as int);
    Strings.IntToStringRoundTrip(s.usersCount as int);
    Strings.IntToStringRoundTrip(t.usersCount as int);
  }
}
