/** The identifier and duration codec of lib/youtube.ts: the two URL
    scanners (each regular expression written out as a scanner), the
    clock-style formatter and the ISO 8601 time-part reader. */
module YouTube {
  import opened Wrappers
  import opened Decimal

  // ---------------------------------------------------------------------
  // Identifier extraction
  // ---------------------------------------------------------------------

  const WatchMarker: string := "youtube.com/watch?v="
  const ShortMarker: string := "youtu.be/"
  const EmbedMarker: string := "youtube.com/embed/"
  const ListMarker: string := "list="

  /** The characters the class `[^&\n?#]` excludes: they end a captured id. */
  predicate IsStop(c: char)
  {
    c == '&' || c == '\n' || c == '?' || c == '#'
  }

  predicate NoStops(s: string)
  {
    forall i :: 0 <= i < |s| ==> !IsStop(s[i])
  }

  /** The class `[a-zA-Z0-9_-]`. */
  predicate IsIdChar(c: char)
  {
    ('a' <= c <= 'z') || ('A' <= c <= 'Z') || ('0' <= c <= '9') || c == '_' || c == '-'
  }

  /** `w` occurs in `s` starting at index `k`. */
  predicate HasAt(s: string, k: nat, w: string)
  {
    k + |w| <= |s| && s[k..k + |w|] == w
  }

  /** The two searching expressions: the link forms of a video URL, and the
      `list=` query parameter of a playlist URL. */
  datatype Pattern = VideoLink | ListParam

  /** Length of the literal part of `p` that matches at index `k`, trying the
      alternatives in the order the expression lists them. */
  function MarkerAt(p: Pattern, s: string, k: nat): (r: Option<nat>)
    ensures r.Some? ==> k + r.value <= |s|
  {
    match p
    case VideoLink =>
      if HasAt(s, k, WatchMarker) then Some(|WatchMarker|)
      else if HasAt(s, k, ShortMarker) then Some(|ShortMarker|)
      else if HasAt(s, k, EmbedMarker) then Some(|EmbedMarker|)
      else None
    case ListParam =>
      if k < |s| && (s[k] == '?' || s[k] == '&') && HasAt(s, k + 1, ListMarker)
      then Some(1 + |ListMarker|) else None
  }

  /** The whole expression matches at `k`: the literal part matches and the
      capture group `([^&\n?#]+)` gets at least one character. */
  predicate MatchesAt(p: Pattern, s: string, k: nat)
  {
    && MarkerAt(p, s, k).Some?
    && k + MarkerAt(p, s, k).value < |s|
    && !IsStop(s[k + MarkerAt(p, s, k).value])
  }

  /** `k` is where a JavaScript `match` reports the match: the leftmost index
      at which the expression matches. */
  ghost predicate IsLeftmostMatch(p: Pattern, s: string, k: nat)
  {
    MatchesAt(p, s, k) && forall i :: 0 <= i < k ==> !MatchesAt(p, s, i)
  }

  /** End of the maximal run of non-stop characters starting at `k`. */
  function RunEnd(s: string, k: nat): (e: nat)
    requires k <= |s|
    ensures k <= e <= |s|
    ensures forall i :: k <= i < e ==> !IsStop(s[i])
    ensures e == |s| || IsStop(s[e])
    decreases |s| - k
  {
    if k == |s| || IsStop(s[k]) then k else RunEnd(s, k + 1)
  }

  /** What the greedy capture group takes for a match at `k`. */
  function Capture(p: Pattern, s: string, k: nat): (r: string)
    requires MatchesAt(p, s, k)
    ensures |r| > 0 && NoStops(r)
  {
    var c := k + MarkerAt(p, s, k).value;
    var r := s[c..RunEnd(s, c)];
    assert forall i :: 0 <= i < |r| ==> r[i] == s[c + i];
    r
  }

  /** Scans for the leftmost match at or after index `k`. */
  function Scan(p: Pattern, s: string, k: nat): (r: Option<nat>)
    requires k <= |s|
    ensures r.Some? ==> k <= r.value < |s| && MatchesAt(p, s, r.value)
    ensures r.Some? ==> forall i :: k <= i < r.value ==> !MatchesAt(p, s, i)
    ensures r.None? ==> forall i :: k <= i ==> !MatchesAt(p, s, i)
    decreases |s| - k
  {
    if k == |s| then None
    else if MatchesAt(p, s, k) then Some(k)
    else Scan(p, s, k + 1)
  }

  /** The capture of the leftmost match of `p` in `s`, if there is one. */
  function Search(p: Pattern, s: string): (r: Option<string>)
    ensures forall k :: IsLeftmostMatch(p, s, k) ==> r == Some(Capture(p, s, k))
    ensures (forall k :: !MatchesAt(p, s, k)) <==> r.None?
  {
    match Scan(p, s, 0)
    case Some(k) => Some(Capture(p, s, k))
    case None => None
  }

  /** The anchored expression `^([a-zA-Z0-9_-]{11})$`. */
  predicate IsBareVideoId(s: string)
  {
    |s| == 11 && forall i :: 0 <= i < |s| ==> IsIdChar(s[i])
  }

  /** The anchored expression `^(PL[a-zA-Z0-9_-]+)$`. */
  predicate IsBarePlaylistId(s: string)
  {
    |s| >= 3 && s[0] == 'P' && s[1] == 'L' && forall i :: 2 <= i < |s| ==> IsIdChar(s[i])
  }

  /** `extractVideoId`: the id after the leftmost link marker, else the whole
      string when it is a bare eleven-character id, else null. */
  function ExtractVideoId(url: string): (r: Option<string>)
    ensures r.Some? ==> |r.value| > 0 && NoStops(r.value)
    ensures forall k :: IsLeftmostMatch(VideoLink, url, k) ==> r == Some(Capture(VideoLink, url, k))
    ensures (forall k :: !MatchesAt(VideoLink, url, k)) ==>
              (r.Some? <==> IsBareVideoId(url)) && (r.Some? ==> r.value == url)
  {
    match Search(VideoLink, url)
    case Some(id) => Some(id)
    case None => if IsBareVideoId(url) then Some(url) else None
  }

  /** `extractPlaylistId`: the id after the leftmost `?list=` or `&list=`,
      else the whole string when it is a bare `PL…` id, else null. */
  function ExtractPlaylistId(url: string): (r: Option<string>)
    ensures r.Some? ==> |r.value| > 0 && NoStops(r.value)
    ensures forall k :: IsLeftmostMatch(ListParam, url, k) ==> r == Some(Capture(ListParam, url, k))
    ensures (forall k :: !MatchesAt(ListParam, url, k)) ==>
              (r.Some? <==> IsBarePlaylistId(url)) && (r.Some? ==> r.value == url)
  {
    match Search(ListParam, url)
    case Some(id) => Some(id)
    case None => if IsBarePlaylistId(url) then Some(url) else None
  }

  /** A marker containing a '.' cannot occur in a string of id characters. */
  lemma DottedMarkerAbsent(s: string, k: nat, w: string, dot: nat)
    requires dot < |w| && w[dot] == '.'
    requires forall i :: 0 <= i < |s| ==> IsIdChar(s[i])
    ensures !HasAt(s, k, w)
  {
    if k + |w| <= |s| {
      assert IsIdChar(s[k + dot]);
      assert s[k..k + |w|][dot] != w[dot];
    }
  }

  /** A bare eleven-character id is returned unchanged: none of the link
      markers can occur in it, since each contains a '.'. */
  lemma BareVideoIdIsItself(s: string)
    requires IsBareVideoId(s)
    ensures ExtractVideoId(s) == Some(s)
  {
    forall k: nat
      ensures !MatchesAt(VideoLink, s, k)
    {
      DottedMarkerAbsent(s, k, WatchMarker, 7);
      DottedMarkerAbsent(s, k, ShortMarker, 5);
      DottedMarkerAbsent(s, k, EmbedMarker, 7);
    }
  }

  /** A bare `PL…` id is returned unchanged: it holds neither '?' nor '&'. */
  lemma BarePlaylistIdIsItself(s: string)
    requires IsBarePlaylistId(s)
    ensures ExtractPlaylistId(s) == Some(s)
  {
    forall k: nat
      ensures !MatchesAt(ListParam, s, k)
    {
      if k < |s| {
        assert k < 2 || IsIdChar(s[k]);
      }
    }
  }

  // ---------------------------------------------------------------------
  // Clock formatting
  // ---------------------------------------------------------------------

  datatype Clock = Clock(hours: nat, minutes: nat, seconds: nat)

  /** The three fields `formatDuration` computes with floor division. */
  function ClockOf(total: nat): (c: Clock)
    ensures c.hours * 3600 + c.minutes * 60 + c.seconds == total
    ensures c.minutes < 60 && c.seconds < 60
  {
    Clock(total / 3600, (total % 3600) / 60, total % 60)
  }

  /** `formatDuration`: `H:MM:SS` from one hour on, `M:SS` below. */
  function FormatDuration(total: nat): (r: string)
  {
    var c := ClockOf(total);
    if c.hours > 0 then Show(c.hours) + ":" + Pad2(c.minutes) + ":" + Pad2(c.seconds)
    else Show(c.minutes) + ":" + Pad2(c.seconds)
  }

  predicate NoColon(s: string)
  {
    forall i :: 0 <= i < |s| ==> s[i] != ':'
  }

  /** `s.split(':')`. */
  function Fields(s: string): (r: seq<string>)
    ensures |r| >= 1
  {
    if s == [] then [""]
    else
      var rest := Fields(s[1..]);
      if s[0] == ':' then [""] + rest else [[s[0]] + rest[0]] + rest[1..]
  }

  lemma {:induction false} FieldsOfPlain(a: string)
    requires NoColon(a)
    ensures Fields(a) == [a]
  {
    if a != [] {
      FieldsOfPlain(a[1..]);
      assert [a[0]] + a[1..] == a;
    }
  }

  lemma {:induction false} FieldsOfJoin(a: string, b: string)
    requires NoColon(a)
    ensures Fields(a + ":" + b) == [a] + Fields(b)
  {
    if a == [] {
      assert a + ":" + b == [':'] + b;
      assert (a + ":" + b)[1..] == b;
    } else {
      assert (a + ":" + b)[1..] == a[1..] + ":" + b;
      FieldsOfJoin(a[1..], b);
      assert [a[0]] + a[1..] == a;
    }
  }

  lemma DigitsHaveNoColon(s: string)
    requires AllDigits(s)
    ensures NoColon(s)
  {
    forall i | 0 <= i < |s|
      ensures s[i] != ':'
    {
      assert IsDigit(s[i]);
    }
  }

  /** Base-60 value of the clock fields, most significant first. */
  function Sexagesimal(f: seq<string>): (r: nat)
    requires forall i :: 0 <= i < |f| ==> AllDigits(f[i])
  {
    if f == [] then 0 else Sexagesimal(f[..|f| - 1]) * 60 + Value(f[|f| - 1])
  }

  /** Reads a clock string back into seconds: the fields must all be
      non-empty digit strings. */
  function ParseClock(s: string): (r: Option<nat>)
  {
    var f := Fields(s);
    if forall i :: 0 <= i < |f| ==> |f[i]| > 0 && AllDigits(f[i]) then Some(Sexagesimal(f))
    else None
  }

  lemma Sexagesimal2(a: string, b: string)
    requires AllDigits(a) && AllDigits(b)
    ensures Sexagesimal([a, b]) == Value(a) * 60 + Value(b)
  {
    assert Sexagesimal([a]) == Value(a) by {
      assert [a][..0] == [];
    }
    assert [a, b][..|[a, b]| - 1] == [a];
  }

  lemma Sexagesimal3(a: string, b: string, c: string)
    requires AllDigits(a) && AllDigits(b) && AllDigits(c)
    ensures Sexagesimal([a, b, c]) == (Value(a) * 60 + Value(b)) * 60 + Value(c)
  {
    var f := [a, b, c];
    assert f[..|f| - 1] == [a, b];
    Sexagesimal2(a, b);
    assert Sexagesimal(f) == Sexagesimal([a, b]) * 60 + Value(c);
  }

  /** Splitting two digit strings joined by ':' gives them back. */
  lemma Fields2(a: string, b: string)
    requires AllDigits(a) && AllDigits(b)
    ensures Fields(a + ":" + b) == [a, b]
  {
    DigitsHaveNoColon(a);
    DigitsHaveNoColon(b);
    FieldsOfPlain(b);
    FieldsOfJoin(a, b);
  }

  /** Splitting three digit strings joined by ':' gives them back. */
  lemma Fields3(a: string, b: string, c: string)
    requires AllDigits(a) && AllDigits(b) && AllDigits(c)
    ensures Fields(a + ":" + b + ":" + c) == [a, b, c]
  {
    DigitsHaveNoColon(a);
    Fields2(b, c);
    FieldsOfJoin(a, b + ":" + c);
    assert a + ":" + b + ":" + c == a + ":" + (b + ":" + c);
  }

  /** The fields `formatDuration` writes, before joining them with ':'. */
  lemma FormatDurationFields(total: nat)
    ensures var c := ClockOf(total);
      Fields(FormatDuration(total)) ==
        if c.hours > 0 then [Show(c.hours), Pad2(c.minutes), Pad2(c.seconds)]
        else [Show(c.minutes), Pad2(c.seconds)]
  {
    var c := ClockOf(total);
    if c.hours > 0 {
      Fields3(Show(c.hours), Pad2(c.minutes), Pad2(c.seconds));
    } else {
      Fields2(Show(c.minutes), Pad2(c.seconds));
    }
  }

  /** Reading the formatted clock back gives the number of seconds again. */
  lemma FormatDurationRoundTrip(total: nat)
    ensures ParseClock(FormatDuration(total)) == Some(total)
  {
    var c := ClockOf(total);
    FormatDurationFields(total);
    ValueOfShow(c.hours);
    ValueOfShow(c.minutes);
    if c.hours > 0 {
      Sexagesimal3(Show(c.hours), Pad2(c.minutes), Pad2(c.seconds));
    } else {
      Sexagesimal2(Show(c.minutes), Pad2(c.seconds));
    }
  }

  /** The shape of the formatted clock: three fields exactly from one hour on,
      the leading field unpadded, every later field two digits, and each
      field holding its hours, minutes or seconds. */
  lemma FormatDurationShape(total: nat)
    ensures var f := Fields(FormatDuration(total));
      && (|f| == 3 <==> total >= 3600)
      && (|f| == 2 <==> total < 3600)
      && Canonical(f[0])
      && (forall i :: 1 <= i < |f| ==> |f[i]| == 2 && AllDigits(f[i]))
      && (total < 3600 ==> Value(f[0]) == total / 60 && Value(f[1]) == total % 60)
      && (total >= 3600 ==>
            Value(f[0]) == total / 3600 && Value(f[1]) == (total % 3600) / 60 && Value(f[2]) == total % 60)
  {
    var c := ClockOf(total);
    FormatDurationFields(total);
    ValueOfShow(c.hours);
    ValueOfShow(c.minutes);
  }

  lemma FormatDurationExamples()
    ensures FormatDuration(0) == "0:00"
    ensures FormatDuration(65) == "1:05"
    ensures FormatDuration(3725) == "1:02:05"
  {
  }

  // ---------------------------------------------------------------------
  // ISO 8601 duration reading
  // ---------------------------------------------------------------------

  /** "PT" occurs at index `k`. */
  predicate PTAt(s: string, k: nat)
  {
    k + 1 < |s| && s[k] == 'P' && s[k + 1] == 'T'
  }

  /** Leftmost index at or after `k` where "PT" occurs. */
  function FindPT(s: string, k: nat): (r: Option<nat>)
    requires k <= |s|
    ensures r.Some? ==> k <= r.value && PTAt(s, r.value)
    ensures r.Some? ==> forall i :: k <= i < r.value ==> !PTAt(s, i)
    ensures r.None? ==> forall i :: k <= i ==> !PTAt(s, i)
    decreases |s| - k
  {
    if k + 2 > |s| then None
    else if PTAt(s, k) then Some(k)
    else FindPT(s, k + 1)
  }

  /** End of the maximal run of decimal digits (`\d+`) starting at `k`. */
  function DigitsEnd(s: string, k: nat): (e: nat)
    requires k <= |s|
    ensures k <= e <= |s|
    ensures forall i :: k <= i < e ==> IsDigit(s[i])
    ensures e == |s| || !IsDigit(s[e])
    decreases |s| - k
  {
    if k == |s| || !IsDigit(s[k]) then k else DigitsEnd(s, k + 1)
  }

  /** One optional group `(\d+U)?` at index `k`: its numeric value and the
      index after it, or 0 and `k` when the group does not match there
      (`parseInt(undefined) || 0`). */
  function Group(s: string, k: nat, unit: char): (r: (nat, nat))
    requires k <= |s|
    ensures k <= r.1 <= |s|
  {
    var e := DigitsEnd(s, k);
    if k < e < |s| && s[e] == unit then (Value(s[k..e]), e + 1) else (0, k)
  }

  /** `parseDuration`: hours, minutes and seconds of the groups following the
      leftmost "PT", combined into seconds; 0 when there is no "PT". */
  function ParseDuration(s: string): (r: nat)
    ensures (forall i :: 0 <= i ==> !PTAt(s, i)) ==> r == 0
  {
    match FindPT(s, 0)
    case None => 0
    case Some(p) => ReadTime(s, p + 2)
  }

  /** The three optional groups `(\d+H)?(\d+M)?(\d+S)?` read from index `k`
      on, combined into seconds. */
  function ReadTime(s: string, k: nat): (r: nat)
    requires k <= |s|
  {
    var hours := Group(s, k, 'H');
    var minutes := Group(s, hours.1, 'M');
    var seconds := Group(s, minutes.1, 'S');
    hours.0 * 3600 + minutes.0 * 60 + seconds.0
  }

  /** One component of an ISO 8601 time part: its digits then its unit
      letter, or nothing when omitted. */
  function Component(d: Option<string>, unit: char): (r: string)
  {
    match d
    case Some(t) => t + [unit]
    case None => ""
  }

  predicate IsNumeral(d: Option<string>)
  {
    d.Some? ==> |d.value| > 0 && AllDigits(d.value)
  }

  function ValueOr0(d: Option<string>): (r: nat)
    requires IsNumeral(d)
  {
    if d.Some? then Value(d.value) else 0
  }

  /** `PT{h}H{m}M{s}S` with any component omitted. */
  function IsoTime(h: Option<string>, m: Option<string>, s: Option<string>): (r: string)
  {
    "PT" + Component(h, 'H') + (Component(m, 'M') + Component(s, 'S'))
  }

  /** The digit run of a component ends right before its unit letter. */
  lemma DigitsEndAt(s: string, k: nat, d: string)
    requires k + |d| <= |s| && s[k..k + |d|] == d && AllDigits(d)
    requires k + |d| == |s| || !IsDigit(s[k + |d|])
    ensures DigitsEnd(s, k) == k + |d|
    decreases |d|
  {
    if d != [] {
      assert s[k] == d[0];
      assert s[k + 1..k + 1 + |d[1..]|] == d[1..];
      DigitsEndAt(s, k + 1, d[1..]);
    }
  }

  /** No optional group can match at the start of `t`: the text ends, or
      it does not continue with a digit. */
  predicate EndsGroups(t: string)
  {
    t == [] || !IsDigit(t[0])
  }

  /** Reading group `unit` at `k`, where `s` continues with `Component(d, u)`
      followed by `rest`: when `u` is `unit` the group reads `d`, otherwise
      (and when nothing that could be a group follows) it is skipped. */
  lemma GroupOnComponent(s: string, k: nat, d: Option<string>, u: char, unit: char, rest: string)
    requires IsNumeral(d) && !IsDigit(u)
    requires k <= |s| && s[k..] == Component(d, u) + rest
    requires d.None? ==> EndsGroups(rest)
    ensures d.Some? && u == unit ==> Group(s, k, unit) == (Value(d.value), k + |d.value| + 1)
    ensures !(d.Some? && u == unit) ==> Group(s, k, unit) == (0, k)
  {
    if d.Some? {
      var t := d.value;
      assert s[k..][..|t|] == t;
      assert s[k..k + |t|] == t;
      assert s[k + |t|] == s[k..][|t|] == u;
      DigitsEndAt(s, k, t);
    } else {
      assert s[k..] == rest;
      if rest != [] {
        assert s[k] == rest[0];
      }
    }
  }

  /** The hours group at `a` reads `h`, or is skipped when `h` is omitted. */
  lemma HoursGroup(x: string, a: nat, h: Option<string>, m: Option<string>, s: Option<string>, post: string)
    requires IsNumeral(h) && IsNumeral(m) && IsNumeral(s) && EndsGroups(post)
    requires a <= |x| && x[a..] == Component(h, 'H') + (Component(m, 'M') + (Component(s, 'S') + post))
    ensures Group(x, a, 'H') == (ValueOr0(h), a + |Component(h, 'H')|)
  {
    var cm, cs := Component(m, 'M'), Component(s, 'S');
    if h.Some? {
      GroupOnComponent(x, a, h, 'H', 'H', cm + (cs + post));
    } else if m.Some? {
      GroupOnComponent(x, a, m, 'M', 'H', cs + post);
    } else {
      GroupOnComponent(x, a, s, 'S', 'H', post);
    }
  }

  /** The minutes group at `k` reads `m`, or is skipped when `m` is omitted. */
  lemma MinutesGroup(x: string, k: nat, m: Option<string>, s: Option<string>, post: string)
    requires IsNumeral(m) && IsNumeral(s) && EndsGroups(post)
    requires k <= |x| && x[k..] == Component(m, 'M') + (Component(s, 'S') + post)
    ensures Group(x, k, 'M') == (ValueOr0(m), k + |Component(m, 'M')|)
  {
    if m.Some? {
      GroupOnComponent(x, k, m, 'M', 'M', Component(s, 'S') + post);
    } else {
      GroupOnComponent(x, k, s, 'S', 'M', post);
    }
  }

  /** The three groups read from `a`, where `x` continues with
      `{h}H{m}M{s}S` and then `post`, give the components' values. */
  lemma ReadTimeOfComponents(x: string, a: nat, h: Option<string>, m: Option<string>, s: Option<string>, post: string)
    requires IsNumeral(h) && IsNumeral(m) && IsNumeral(s) && EndsGroups(post)
    requires a <= |x| && x[a..] == Component(h, 'H') + (Component(m, 'M') + (Component(s, 'S') + post))
    ensures ReadTime(x, a) == ValueOr0(h) * 3600 + ValueOr0(m) * 60 + ValueOr0(s)
  {
    var ch := Component(h, 'H');
    HoursGroup(x, a, h, m, s, post);
    SuffixAfter(x, a, ch, Component(m, 'M') + (Component(s, 'S') + post));
    var k1 := a + |ch|;
    MinutesAndSeconds(x, k1, m, s, post);
    ReadTimeFromGroups(x, a, ValueOr0(h), k1, ValueOr0(m), k1 + |Component(m, 'M')|, ValueOr0(s));
  }

  /** After the hours, the minutes group reads `m` and the seconds group `s`. */
  lemma MinutesAndSeconds(x: string, k1: nat, m: Option<string>, s: Option<string>, post: string)
    requires IsNumeral(m) && IsNumeral(s) && EndsGroups(post)
    requires k1 <= |x| && x[k1..] == Component(m, 'M') + (Component(s, 'S') + post)
    ensures var k2 := k1 + |Component(m, 'M')|;
      && Group(x, k1, 'M') == (ValueOr0(m), k2)
      && k2 <= |x|
      && Group(x, k2, 'S').0 == ValueOr0(s)
  {
    var cm, cs := Component(m, 'M'), Component(s, 'S');
    MinutesGroup(x, k1, m, s, post);
    SuffixAfter(x, k1, cm, cs + post);
    GroupOnComponent(x, k1 + |cm|, s, 'S', 'S', post);
  }

  /** `ReadTime` combines whatever the three groups read. */
  lemma ReadTimeFromGroups(x: string, a: nat, hv: nat, k1: nat, mv: nat, k2: nat, sv: nat)
    requires a <= |x| && Group(x, a, 'H') == (hv, k1)
    requires k1 <= |x| && Group(x, k1, 'M') == (mv, k2)
    requires k2 <= |x| && Group(x, k2, 'S').0 == sv
    ensures ReadTime(x, a) == hv * 3600 + mv * 60 + sv
  {
  }

  /** What follows a prefix `p` of the suffix from `a`. */
  lemma SuffixAfter(x: string, a: nat, p: string, q: string)
    requires a <= |x| && x[a..] == p + q
    ensures a + |p| <= |x| && x[a + |p|..] == q
  {
    assert x[a + |p|..] == x[a..][|p|..];
  }

  /** The pattern is not anchored: `PT{h}H{m}M{s}S` read anywhere after a
      prefix with no "PT", and followed by anything that does not continue
      with a digit, gives `h*3600 + m*60 + s`. */
  lemma ParseDurationInContext(pre: string, h: Option<string>, m: Option<string>, s: Option<string>, post: string)
    requires IsNumeral(h) && IsNumeral(m) && IsNumeral(s)
    requires forall i :: 0 <= i ==> !PTAt(pre, i)
    requires post == [] || !IsDigit(post[0])
    ensures ParseDuration(pre + IsoTime(h, m, s) + post) == ValueOr0(h) * 3600 + ValueOr0(m) * 60 + ValueOr0(s)
  {
    IsoTimeInContext(pre, h, m, s, post);
    ParseDurationOfGroups(pre + IsoTime(h, m, s) + post, |pre|, h, m, s, post);
  }

  /** With the leftmost "PT" at `p`, followed by `{h}H{m}M{s}S` and `post`,
      the duration is `h*3600 + m*60 + s`. */
  lemma ParseDurationOfGroups(x: string, p: nat, h: Option<string>, m: Option<string>, s: Option<string>, post: string)
    requires IsNumeral(h) && IsNumeral(m) && IsNumeral(s) && EndsGroups(post)
    requires PTAt(x, p) && forall i :: 0 <= i < p ==> !PTAt(x, i)
    requires x[p + 2..] == Component(h, 'H') + (Component(m, 'M') + (Component(s, 'S') + post))
    ensures ParseDuration(x) == ValueOr0(h) * 3600 + ValueOr0(m) * 60 + ValueOr0(s)
  {
    ParseDurationAt(x, p);
    ReadTimeOfComponents(x, p + 2, h, m, s, post);
  }

  /** Reading `PT{h}H{m}M{s}S` gives `h*3600 + m*60 + s`, omitted components
      counting 0. */
  lemma ParseDurationRoundTrip(h: Option<string>, m: Option<string>, s: Option<string>)
    requires IsNumeral(h) && IsNumeral(m) && IsNumeral(s)
    ensures ParseDuration(IsoTime(h, m, s)) == ValueOr0(h) * 3600 + ValueOr0(m) * 60 + ValueOr0(s)
  {
    ParseDurationInContext([], h, m, s, []);
    assert [] + IsoTime(h, m, s) + [] == IsoTime(h, m, s);
  }

  /** In `pre + PT{h}H{m}M{s}S + post` the leftmost "PT" is the one after
      `pre`, followed by the components and `post`. */
  lemma IsoTimeInContext(pre: string, h: Option<string>, m: Option<string>, s: Option<string>, post: string)
    requires forall i :: 0 <= i ==> !PTAt(pre, i)
    ensures var x := pre + IsoTime(h, m, s) + post;
      && PTAt(x, |pre|)
      && (forall i :: 0 <= i < |pre| ==> !PTAt(x, i))
      && x[|pre| + 2..] == Component(h, 'H') + (Component(m, 'M') + (Component(s, 'S') + post))
  {
    var x := pre + IsoTime(h, m, s) + post;
    var ch, cm, cs := Component(h, 'H'), Component(m, 'M'), Component(s, 'S');
    assert IsoTime(h, m, s) == "PT" + (ch + (cm + cs));
    assert x[|pre|..] == IsoTime(h, m, s) + post;
    assert x[|pre| + 2..] == (ch + (cm + cs)) + post;
    assert (ch + (cm + cs)) + post == ch + (cm + (cs + post));
    forall i | 0 <= i < |pre|
      ensures !PTAt(x, i)
    {
      if i + 1 < |pre| {
        assert !PTAt(pre, i);
        assert x[i] == pre[i] && x[i + 1] == pre[i + 1];
      } else {
        assert x[i + 1] == x[|pre|..][0] == 'P';
      }
    }
  }

  /** The first "PT" at `p` is where the groups are read from. */
  lemma ParseDurationAt(x: string, p: nat)
    requires PTAt(x, p) && forall i :: 0 <= i < p ==> !PTAt(x, i)
    ensures p + 2 <= |x| && ParseDuration(x) == ReadTime(x, p + 2)
  {
    assert FindPT(x, 0) == Some(p);
  }

  /** A date-part duration has no "PT" substring, so it reads as 0. */
  lemma DatedDurationReadsZero(dated: string)
    requires dated == "P1DT2H"
    ensures ParseDuration(dated) == 0
  {
    forall i: nat
      ensures !PTAt(dated, i)
    {
      if i + 1 < |dated| && dated[i] == 'P' {
        assert i == 0;
      }
    }
  }

  lemma ParseDurationExamples(x: string)
    requires x == "PT1H30S"
    ensures ParseDuration(x) == 3630
  {
    var one, thirty := "1", "30";
    assert Value(one) == 1;
    assert Value(thirty) == 30 by {
      assert thirty[..1] == "3";
    }
    assert x == IsoTime(Some(one), None, Some(thirty)) by {
      assert Component(Some(one), 'H') == "1H";
      assert Component(Some(thirty), 'S') == "30S";
      assert x == "PT" + "1H" + "" + "30S";
    }
    ParseDurationRoundTrip(Some(one), None, Some(thirty));
  }

  lemma ParseDurationMinutesExample(x: string)
    requires x == "PT4M13S"
    ensures ParseDuration(x) == 253
  {
    var four, thirteen := "4", "13";
    assert Value(four) == 4;
    assert Value(thirteen) == 13 by {
      assert thirteen[..1] == "1";
    }
    assert x == IsoTime(None, Some(four), Some(thirteen)) by {
      assert Component(Some(four), 'M') == "4M";
      assert Component(Some(thirteen), 'S') == "13S";
      assert x == "PT" + "" + "4M" + "13S";
    }
    ParseDurationRoundTrip(None, Some(four), Some(thirteen));
  }

  /** The pattern is not anchored: text before the "PT" and after the last
      group is ignored, so "xPT5M!" reads as five minutes. */
  lemma ParseDurationUnanchoredExample(x: string)
    requires x == "xPT5M!"
    ensures ParseDuration(x) == 300
  {
    var pre, five, post := "x", "5", "!";
    assert Value(five) == 5;
    forall i | 0 <= i
      ensures !PTAt(pre, i)
    {
    }
    assert x == pre + IsoTime(None, Some(five), None) + post by {
      assert Component(Some(five), 'M') == "5M";
      assert x == "x" + ("PT" + "" + ("5M" + "")) + "!";
    }
    ParseDurationInContext(pre, None, Some(five), None, post);
  }

  /** The id is cut at the next '&': a watch URL carrying a playlist yields
      the playlist id alone. */
  lemma PlaylistIdFromWatchUrl(s: string)
    requires s == "watch?v=x&list=PLab&index=3"
    ensures ExtractPlaylistId(s) == Some("PLab")
  {
    assert HasAt(s, 10, ListMarker) by {
      assert s[10..15] == "list=";
    }
    assert MatchesAt(ListParam, s, 9);
    forall i | 0 <= i < 9
      ensures !MatchesAt(ListParam, s, i)
    {
      if s[i] == '?' || s[i] == '&' {
        assert i == 5;
        assert s[6..11][0] == 'v';
      }
    }
    assert IsLeftmostMatch(ListParam, s, 9);
    assert s[15] == 'P' && s[16] == 'L' && s[17] == 'a' && s[18] == 'b' && s[19] == '&';
    assert RunEnd(s, 15) == 19;
    assert s[15..19] == "PLab";
  }

  /** Without '?' and '&' only the bare form can match. */
  lemma NoQueryNoListParam(s: string)
    requires forall i :: 0 <= i < |s| ==> s[i] != '?' && s[i] != '&'
    ensures forall k :: !MatchesAt(ListParam, s, k)
  {
  }

  /** Bare "PL" is too short for a playlist id, and `list=` needs a
      preceding '?' or '&'. */
  lemma PlaylistIdRejections()
    ensures ExtractPlaylistId("PL") == None
    ensures ExtractPlaylistId("list=PLab") == None
  {
    NoQueryNoListParam("PL");
    var u := "list=PLab";
    forall i | 0 <= i < |u|
      ensures u[i] != '?' && u[i] != '&'
    {
      assert u[i] in "list=PLab";
    }
    NoQueryNoListParam(u);
  }
}
