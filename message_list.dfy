/**
 * The timeline list component: splitting a message body into literal text
 * and links (`renderMessageBody`), the two URL patterns, and the choice of
 * which of the four list states is shown.
 */
module MessageList {
  import opened Text
  import opened Types

  const HttpPrefix: string := "http://"
  const HttpsPrefix: string := "https://"

  predicate HasPrefixAt(s: string, q: nat, p: string)
  {
    q + |p| <= |s| && s[q..q + |p|] == p
  }

  /** No character of `s` is in the `\s` class. */
  predicate NoSpace(s: string)
  {
    forall i :: 0 <= i < |s| ==> !IsJsSpace(s[i])
  }

  /**
   * `urlPattern`, `https?:\/\/[^\s]+`, has a match beginning at index `q` of
   * `s`: the scheme, then at least one non-whitespace character.
   */
  predicate MatchesAt(s: string, q: nat)
  {
    (HasPrefixAt(s, q, HttpPrefix) && q + 7 < |s| && !IsJsSpace(s[q + 7]))
    || (HasPrefixAt(s, q, HttpsPrefix) && q + 8 < |s| && !IsJsSpace(s[q + 8]))
  }

  /** The URL pattern matches nowhere inside `t`. */
  predicate HasNoUrl(t: string)
  {
    forall q :: 0 <= q < |t| ==> !MatchesAt(t, q)
  }

  /** `exactURLPattern.test(t)`, i.e. `^https?:\/\/[^\s]+$`: the whole of `t` is one URL. */
  predicate IsExactUrl(t: string)
  {
    (HasPrefixAt(t, 0, HttpPrefix) && |t| > 7 && NoSpace(t[7..]))
    || (HasPrefixAt(t, 0, HttpsPrefix) && |t| > 8 && NoSpace(t[8..]))
  }

  /** The first whitespace position at or after `k`, or the end of `s`. */
  function NextSpace(s: string, k: nat): (e: nat)
    requires k <= |s|
    ensures k <= e <= |s|
    ensures e < |s| ==> IsJsSpace(s[e])
    ensures forall i :: k <= i < e ==> !IsJsSpace(s[i])
    decreases |s| - k
  {
    if k == |s| || IsJsSpace(s[k]) then k else NextSpace(s, k + 1)
  }

  /** The scheme characters are not whitespace. */
  lemma SchemeNotSpace(s: string, q: nat)
    requires MatchesAt(s, q)
    ensures forall i :: q <= i < q + 8 ==> !IsJsSpace(s[i])
  {
    forall i | q <= i < q + 8
      ensures !IsJsSpace(s[i])
    {
      if HasPrefixAt(s, q, HttpsPrefix) {
        assert s[i] == s[q..q + 8][i - q] == HttpsPrefix[i - q];
      } else if i < q + 7 {
        assert s[i] == s[q..q + 7][i - q] == HttpPrefix[i - q];
      }
    }
  }

  /**
   * Where a match beginning at `q` ends: `[^\s]+` is greedy, so the match
   * runs up to the next whitespace character or the end of the body.
   */
  function UrlEnd(s: string, q: nat): (e: nat)
    requires MatchesAt(s, q)
    ensures q + 8 <= e <= |s|
    ensures e < |s| ==> IsJsSpace(s[e])
    ensures forall i :: q <= i < e ==> !IsJsSpace(s[i])
  {
    SchemeNotSpace(s, q);
    NextSpace(s, q)
  }

  /**
   * The splitting loop of ECMAScript's `RegExp.prototype[@@split]` applied to
   * `urlPattern`: `p` is where the current literal began, `q` the position
   * being tried. A match at `q` closes the literal `s[p..q]`, contributes its
   * single capture (the whole match) and restarts after it; otherwise `q`
   * advances by one. At the end the remaining literal is pushed.
   */
  function SplitFrom(s: string, p: nat, q: nat): (parts: seq<string>)
    requires p <= q <= |s|
    ensures |parts| % 2 == 1
    decreases |s| - q
  {
    if q == |s| then [s[p..]]
    else if MatchesAt(s, q) then
      var e := UrlEnd(s, q);
      [s[p..q], s[q..e]] + SplitFrom(s, e, e)
    else SplitFrom(s, p, q + 1)
  }

  /**
   * `body.split(urlPattern)`. For the empty body the standard returns `[""]`
   * because the pattern cannot match the empty string; `SplitFrom` gives the
   * same.
   */
  function Split(body: string): seq<string>
  {
    SplitFrom(body, 0, 0)
  }

  function Concat(parts: seq<string>): string
  {
    if parts == [] then [] else Concat(parts[..|parts| - 1]) + parts[|parts| - 1]
  }

  lemma {:induction false} ConcatAppend(a: seq<string>, b: seq<string>)
    ensures Concat(a + b) == Concat(a) + Concat(b)
    decreases |b|
  {
    if b == [] {
      assert a + b == a;
    } else {
      assert (a + b)[..|a + b| - 1] == a + b[..|b| - 1];
      ConcatAppend(a, b[..|b| - 1]);
    }
  }

  lemma ConcatPair(x: string, y: string, rest: seq<string>)
    ensures Concat([x, y] + rest) == x + y + Concat(rest)
  {
    ConcatAppend([x, y], rest);
    assert [x, y][..1] == [x];
    assert Concat([x]) == Concat([]) + x;
  }

  lemma ConcatSingle(x: string)
    ensures Concat([x]) == x
  {
    assert [x][..0] == [];
  }

  lemma SliceJoin(s: string, p: nat, q: nat, e: nat)
    requires p <= q <= e <= |s|
    ensures s[p..q] + s[q..e] + s[e..] == s[p..]
  {
    assert s[p..q] + s[q..e] == s[p..e];
    assert s[p..e] + s[e..] == s[p..];
  }

  /** Splitting loses and adds nothing: the parts put back together give the body. */
  lemma {:induction false} SplitFromConcat(s: string, p: nat, q: nat)
    requires p <= q <= |s|
    ensures Concat(SplitFrom(s, p, q)) == s[p..]
    decreases |s| - q
  {
    if q == |s| {
      ConcatSingle(s[p..]);
    } else if MatchesAt(s, q) {
      var e := UrlEnd(s, q);
      var rest := SplitFrom(s, e, e);
      assert SplitFrom(s, p, q) == [s[p..q], s[q..e]] + rest;
      SplitFromConcat(s, e, e);
      ConcatPair(s[p..q], s[q..e], rest);
      SliceJoin(s, p, q, e);
    } else {
      SplitFromConcat(s, p, q + 1);
    }
  }

  lemma SplitConcat(body: string)
    ensures Concat(Split(body)) == body
  {
    SplitFromConcat(body, 0, 0);
  }

  lemma SliceOfSlice(s: string, a: nat, b: nat, i: nat, j: nat)
    requires a <= b <= |s| && i <= j <= b - a
    ensures s[a..b][i..j] == s[a + i..a + j]
  {
    forall k | 0 <= k < j - i
      ensures s[a..b][i..j][k] == s[a + i..a + j][k]
    {
    }
  }

  /** A match inside a slice is a match in the whole string. */
  lemma MatchInSlice(s: string, a: nat, b: nat, j: nat)
    requires a <= b <= |s|
    requires MatchesAt(s[a..b], j)
    ensures MatchesAt(s, a + j)
  {
    var t := s[a..b];
    if HasPrefixAt(t, j, HttpPrefix) && j + 7 < |t| && !IsJsSpace(t[j + 7]) {
      SliceOfSlice(s, a, b, j, j + 7);
      assert t[j + 7] == s[a + j + 7];
    } else {
      SliceOfSlice(s, a, b, j, j + 8);
      assert t[j + 8] == s[a + j + 8];
    }
  }

  /** A literal scanned past without a match contains no URL. */
  lemma LiteralHasNoUrl(s: string, p: nat, q: nat)
    requires p <= q <= |s|
    requires forall i :: p <= i < q ==> !MatchesAt(s, i)
    ensures HasNoUrl(s[p..q])
  {
    forall j | 0 <= j < q - p
      ensures !MatchesAt(s[p..q], j)
    {
      if MatchesAt(s[p..q], j) {
        MatchInSlice(s, p, q, j);
        assert false;
      }
    }
  }

  /** The text a match covers is an exact URL. */
  lemma MatchIsExactUrl(s: string, q: nat)
    requires MatchesAt(s, q)
    ensures IsExactUrl(s[q..UrlEnd(s, q)])
  {
    var e := UrlEnd(s, q);
    var t := s[q..e];
    if HasPrefixAt(s, q, HttpPrefix) && q + 7 < |s| && !IsJsSpace(s[q + 7]) {
      assert t[0..7] == s[q..q + 7];
      assert forall i :: 0 <= i < |t[7..]| ==> t[7..][i] == s[q + 7 + i];
    } else {
      assert t[0..8] == s[q..q + 8];
      assert forall i :: 0 <= i < |t[8..]| ==> t[8..][i] == s[q + 8 + i];
    }
  }

  /**
   * The shape a split with one capturing group has: an odd number of parts,
   * exact URLs at the odd indices and URL-free literals at the even ones.
   */
  predicate Alternates(parts: seq<string>)
  {
    |parts| % 2 == 1
    && (forall i :: 0 <= i < |parts| && i % 2 == 1 ==> IsExactUrl(parts[i]))
    && (forall i :: 0 <= i < |parts| && i % 2 == 0 ==> HasNoUrl(parts[i]))
  }

  /** A literal and a link in front of an alternating list still alternate. */
  lemma AlternatesCons(literal: string, link: string, rest: seq<string>)
    requires HasNoUrl(literal) && IsExactUrl(link) && Alternates(rest)
    ensures Alternates([literal, link] + rest)
  {
    var parts := [literal, link] + rest;
    forall i | 2 <= i < |parts|
      ensures parts[i] == rest[i - 2]
    {
    }
  }

  lemma {:induction false} SplitFromAlternates(s: string, p: nat, q: nat)
    requires p <= q <= |s|
    requires forall i :: p <= i < q ==> !MatchesAt(s, i)
    ensures Alternates(SplitFrom(s, p, q))
    decreases |s| - q
  {
    if q == |s| {
      LiteralHasNoUrl(s, p, q);
      assert s[p..] == s[p..q];
    } else if MatchesAt(s, q) {
      var e := UrlEnd(s, q);
      LiteralHasNoUrl(s, p, q);
      MatchIsExactUrl(s, q);
      SplitFromAlternates(s, e, e);
      AlternatesCons(s[p..q], s[q..e], SplitFrom(s, e, e));
    } else {
      SplitFromAlternates(s, p, q + 1);
    }
  }

  /** Split with one capturing group yields 2k+1 parts: links at odd indices, literals at even ones. */
  lemma SplitAlternates(body: string)
    ensures Alternates(Split(body))
  {
    SplitFromAlternates(body, 0, 0);
  }

  /** `exactURLPattern.test` holds of a part exactly when its index is odd. */
  lemma ExactUrlOnOddParts(body: string)
    ensures forall i :: 0 <= i < |Split(body)| ==> (IsExactUrl(Split(body)[i]) <==> i % 2 == 1)
  {
    var parts := Split(body);
    SplitAlternates(body);
    forall i | 0 <= i < |parts| && i % 2 == 0
      ensures !IsExactUrl(parts[i])
    {
      ExactUrlMatchesAtStart(parts[i]);
    }
  }

  lemma ExactUrlMatchesAtStart(t: string)
    ensures IsExactUrl(t) ==> MatchesAt(t, 0)
  {
    if IsExactUrl(t) && HasPrefixAt(t, 0, HttpPrefix) && |t| > 7 {
      assert t[7] == t[7..][0];
    } else if IsExactUrl(t) {
      assert t[8] == t[8..][0];
    }
  }

  /** The first part is a prefix of `s[p..]` reaching at least up to `q`. */
  lemma {:induction false} SplitFromHead(s: string, p: nat, q: nat)
    requires p <= q <= |s|
    ensures var parts := SplitFrom(s, p, q);
      q - p <= |parts[0]| && p + |parts[0]| <= |s| && parts[0] == s[p..p + |parts[0]|]
    decreases |s| - q
  {
    if q < |s| && !MatchesAt(s, q) {
      SplitFromHead(s, p, q + 1);
    }
  }

  /**
   * Every literal after the first is either the last part and empty, or
   * begins with whitespace.
   */
  predicate LinksMaximal(parts: seq<string>)
  {
    forall i :: 0 < i < |parts| && i % 2 == 0 ==>
      (parts[i] == [] ==> i == |parts| - 1) && (parts[i] != [] ==> IsJsSpace(parts[i][0]))
  }

  /** A literal and a link in front of a list whose own first literal also qualifies. */
  lemma LinksMaximalCons(literal: string, link: string, rest: seq<string>)
    requires |rest| >= 1 && LinksMaximal(rest)
    requires rest[0] == [] ==> |rest| == 1
    requires rest[0] != [] ==> IsJsSpace(rest[0][0])
    ensures LinksMaximal([literal, link] + rest)
  {
    var parts := [literal, link] + rest;
    forall i | 0 < i < |parts| && i % 2 == 0
      ensures (parts[i] == [] ==> i == |parts| - 1) && (parts[i] != [] ==> IsJsSpace(parts[i][0]))
    {
      assert parts[i] == rest[i - 2];
    }
  }

  /**
   * Links are maximal: the part after a link is either the final empty
   * literal or starts with whitespace; and every literal strictly between two
   * links is non-empty, so empty literals occur only at the two ends.
   */
  lemma {:induction false} SplitFromBoundaries(s: string, p: nat, q: nat)
    requires p <= q <= |s|
    ensures LinksMaximal(SplitFrom(s, p, q))
    decreases |s| - q
  {
    if q == |s| {
    } else if MatchesAt(s, q) {
      var e := UrlEnd(s, q);
      var rest := SplitFrom(s, e, e);
      SplitFromBoundaries(s, e, e);
      if e < |s| {
        assert !MatchesAt(s, e) by {
          assert s[e] != 'h';
        }
        assert rest == SplitFrom(s, e, e + 1);
        SplitFromHead(s, e, e + 1);
        assert |rest[0]| >= 1 && rest[0][0] == s[e];
      } else {
        assert rest == [""];
      }
      LinksMaximalCons(s[p..q], s[q..e], rest);
    } else {
      SplitFromBoundaries(s, p, q + 1);
    }
  }

  lemma SplitBoundaries(body: string)
    ensures forall i :: 0 < i < |Split(body)| && i % 2 == 0 ==>
      (Split(body)[i] == [] ==> i == |Split(body)| - 1) && (Split(body)[i] != [] ==> IsJsSpace(Split(body)[i][0]))
  {
    assert Split(body) == SplitFrom(body, 0, 0);
    SplitFromBoundaries(body, 0, 0);
  }

  lemma {:induction false} SplitFromWithoutMatch(s: string, p: nat, q: nat)
    requires p <= q <= |s|
    requires forall i :: q <= i < |s| ==> !MatchesAt(s, i)
    ensures SplitFrom(s, p, q) == [s[p..]]
    decreases |s| - q
  {
    if q < |s| {
      SplitFromWithoutMatch(s, p, q + 1);
    }
  }

  /** A body with no URL, the empty body included, is one literal equal to the whole body, and only such a body is. */
  lemma NoUrlIsOneLiteral(body: string)
    ensures HasNoUrl(body) <==> Split(body) == [body]
  {
    SplitAlternates(body);
    assert HasNoUrl(Split(body)[0]);
    if HasNoUrl(body) {
      SplitFromWithoutMatch(body, 0, 0);
    }
  }

  /**
   * A body that is exactly one URL still splits into three parts: the link
   * between two empty literals, so two empty `<span>`s are rendered around it.
   */
  lemma SingleUrlBody(u: string)
    requires IsExactUrl(u)
    ensures Split(u) == ["", u, ""]
  {
    ExactUrlMatchesAtStart(u);
    SchemeNotSpace(u, 0);
    forall i | 0 <= i < |u|
      ensures !IsJsSpace(u[i])
    {
      if i >= 8 {
        if HasPrefixAt(u, 0, HttpPrefix) && |u| > 7 && NoSpace(u[7..]) {
          assert u[i] == u[7..][i - 7];
        } else {
          assert u[i] == u[8..][i - 8];
        }
      }
    }
    var e := UrlEnd(u, 0);
    assert e == |u|;
    assert Split(u) == [u[0..0], u[0..e]] + SplitFrom(u, e, e);
    assert SplitFrom(u, e, e) == [u[e..]] && u[e..] == "";
    assert u[0..e] == u && u[0..0] == "";
  }

  /** The running `offset` before part `i`: the UTF-16 length of everything before it. */
  function Offset(parts: seq<string>, i: nat): nat
    requires i <= |parts|
  {
    Utf16Length(Concat(parts[..i]))
  }

  lemma OffsetStep(parts: seq<string>, i: nat)
    requires i < |parts|
    ensures Offset(parts, i + 1) == Offset(parts, i) + Utf16Length(parts[i])
  {
    assert parts[..i + 1][..i] == parts[..i];
    Utf16LengthAppend(Concat(parts[..i]), parts[i]);
  }

  lemma {:induction false} OffsetMonotone(parts: seq<string>, i: nat, j: nat)
    requires i <= j <= |parts|
    ensures Offset(parts, i) <= Offset(parts, j)
    decreases j - i
  {
    if i < j {
      OffsetStep(parts, i);
      OffsetMonotone(parts, i + 1, j);
    }
  }

  /**
   * The React key `renderMessageBody` gives a part: kind, running offset and
   * the part's text. The source writes it as the kind prefix in front of the
   * suffix `${offset}-${part}`, which is the same string.
   */
  function PartKey(isLink: bool, offset: nat, part: string): string
  {
    (if isLink then "link-" else "text-") + Decimal(offset) + "-" + part
  }

  /** Index of the first '-' in `s`, or |s| when there is none. */
  function FirstDash(s: string): (k: nat)
    ensures k <= |s|
  {
    if s == [] || s[0] == '-' then 0 else 1 + FirstDash(s[1..])
  }

  lemma {:induction false} FirstDashAfter(a: string, x: string)
    requires forall i :: 0 <= i < |a| ==> a[i] != '-'
    ensures FirstDash(a + "-" + x) == |a|
  {
    if a != [] {
      assert (a + "-" + x)[1..] == a[1..] + "-" + x;
      FirstDashAfter(a[1..], x);
    }
  }

  /** In `a + "-" + x` with `a` free of dashes, `a` is determined. */
  lemma DashSeparated(a: string, x: string, b: string, y: string)
    requires forall i :: 0 <= i < |a| ==> a[i] != '-'
    requires forall i :: 0 <= i < |b| ==> b[i] != '-'
    ensures a + "-" + x == b + "-" + y ==> a == b
  {
    FirstDashAfter(a, x);
    FirstDashAfter(b, y);
    if a + "-" + x == b + "-" + y {
      assert a == (a + "-" + x)[..|a|];
      assert b == (b + "-" + y)[..|b|];
    }
  }

  /** Equal keys have the same kind and the same offset. */
  lemma PartKeyInjective(k1: bool, o1: nat, p1: string, k2: bool, o2: nat, p2: string)
    ensures PartKey(k1, o1, p1) == PartKey(k2, o2, p2) ==> k1 == k2 && o1 == o2
  {
    var l := PartKey(k1, o1, p1);
    var r := PartKey(k2, o2, p2);
    assert l[0] == (if k1 then 'l' else 't');
    assert r[0] == (if k2 then 'l' else 't');
    assert l[5..] == Decimal(o1) + "-" + p1;
    assert r[5..] == Decimal(o2) + "-" + p2;
    DashSeparated(Decimal(o1), p1, Decimal(o2), p2);
    DecimalInjective(o1, o2);
  }

  /**
   * When every odd part is non-empty (the links), the keys of all parts are
   * pairwise distinct: two parts of the same kind are at least one link apart,
   * so their offsets differ.
   */
  lemma KeysDistinct(parts: seq<string>)
    requires forall i :: 0 <= i < |parts| && i % 2 == 1 ==> parts[i] != []
    ensures forall i, j :: 0 <= i < j < |parts| ==>
      PartKey(i % 2 == 1, Offset(parts, i), parts[i]) != PartKey(j % 2 == 1, Offset(parts, j), parts[j])
  {
    forall i, j | 0 <= i < j < |parts|
      ensures PartKey(i % 2 == 1, Offset(parts, i), parts[i]) != PartKey(j % 2 == 1, Offset(parts, j), parts[j])
    {
      PartKeyInjective(i % 2 == 1, Offset(parts, i), parts[i], j % 2 == 1, Offset(parts, j), parts[j]);
      if i % 2 == j % 2 {
        OffsetsApart(parts, i, j);
      }
    }
  }

  /** Two parts of the same kind have a non-empty link between them, so their offsets differ. */
  lemma OffsetsApart(parts: seq<string>, i: nat, j: nat)
    requires forall k :: 0 <= k < |parts| && k % 2 == 1 ==> parts[k] != []
    requires i < j < |parts| && i % 2 == j % 2
    ensures Offset(parts, i) < Offset(parts, j)
  {
    var link := if i % 2 == 1 then i else i + 1;
    assert link < j && link % 2 == 1;
    OffsetMonotone(parts, i, link);
    OffsetStep(parts, link);
    OffsetMonotone(parts, link + 1, j);
  }

  /** What `renderMessageBody` returns per part: a `<span>` or an `<a>` element. */
  datatype Segment = TextSpan(text: string, key: string) | Anchor(text: string, href: string, key: string)

  /** The segments' texts, in order. */
  function Texts(segs: seq<Segment>): seq<string>
  {
    seq(|segs|, i requires 0 <= i < |segs| => segs[i].text)
  }

  /**
   * `seg` is what `renderMessageBody` makes of `part` found at `offset`: a
   * link exactly when `exactURLPattern` accepts the part, with the part as its
   * text (and as its href), keyed by kind, offset and text.
   */
  predicate Renders(seg: Segment, part: string, offset: nat)
  {
    && seg.text == part
    && (seg.Anchor? <==> IsExactUrl(part))
    && (seg.Anchor? ==> seg.href == part)
    && seg.key == PartKey(seg.Anchor?, offset, part)
  }

  /** What rendering every part of a body in order guarantees. */
  lemma RenderedBody(body: string, segs: seq<Segment>)
    requires |segs| == |Split(body)|
    requires forall i :: 0 <= i < |segs| ==> Renders(segs[i], Split(body)[i], Offset(Split(body), i))
    ensures Texts(segs) == Split(body)
    ensures Concat(Texts(segs)) == body
    ensures forall i :: 0 <= i < |segs| ==> (segs[i].Anchor? <==> i % 2 == 1)
    ensures forall i :: 0 <= i < |segs| && segs[i].TextSpan? ==> HasNoUrl(segs[i].text)
    ensures forall i, j :: 0 <= i < j < |segs| ==> segs[i].key != segs[j].key
  {
    var parts := Split(body);
    SplitAlternates(body);
    ExactUrlOnOddParts(body);
    SplitConcat(body);
    assert Texts(segs) == parts;
    KeysDistinct(parts);
    forall i, j | 0 <= i < j < |segs|
      ensures segs[i].key != segs[j].key
    {
      assert segs[i].key == PartKey(i % 2 == 1, Offset(parts, i), parts[i]);
      assert segs[j].key == PartKey(j % 2 == 1, Offset(parts, j), parts[j]);
    }
  }

  /** One more rendered part keeps every earlier part rendered. */
  lemma RendersAppend(segs: seq<Segment>, seg: Segment, parts: seq<string>, i: nat)
    requires i < |parts| && |segs| == i
    requires forall k :: 0 <= k < i ==> Renders(segs[k], parts[k], Offset(parts, k))
    requires Renders(seg, parts[i], Offset(parts, i))
    ensures forall k :: 0 <= k < i + 1 ==> Renders((segs + [seg])[k], parts[k], Offset(parts, k))
  {
  }

  /**
   * `renderMessageBody`: split the body, then map over the parts with a
   * running offset, making each part a link when `exactURLPattern` accepts it.
   */
  method RenderMessageBody(body: string) returns (segs: seq<Segment>)
    ensures |segs| == |Split(body)|
    ensures forall i :: 0 <= i < |segs| ==> Renders(segs[i], Split(body)[i], Offset(Split(body), i))
    ensures Concat(Texts(segs)) == body
    ensures forall i :: 0 <= i < |segs| ==> (segs[i].Anchor? <==> i % 2 == 1)
    ensures forall i :: 0 <= i < |segs| && segs[i].TextSpan? ==> HasNoUrl(segs[i].text)
    ensures forall i, j :: 0 <= i < j < |segs| ==> segs[i].key != segs[j].key
  {
    var parts := Split(body);
    var offset := 0;
    segs := [];
    var i := 0;
    while i < |parts|
      invariant 0 <= i <= |parts|
      invariant |segs| == i
      invariant offset == Offset(parts, i)
      invariant forall k :: 0 <= k < i ==> Renders(segs[k], parts[k], Offset(parts, k))
    {
      var part := parts[i];
      var keySuffix := Decimal(offset) + "-" + part;
      var isLink := IsExactUrl(part);
      var seg := if isLink then Anchor(part, part, "link-" + keySuffix) else TextSpan(part, "text-" + keySuffix);
      assert (if isLink then "link-" else "text-") + keySuffix == PartKey(isLink, offset, part);
      assert Renders(seg, part, offset);
      OffsetStep(parts, i);
      offset := offset + Utf16Length(part);
      RendersAppend(segs, seg, parts, i);
      segs := segs + [seg];
      i := i + 1;
    }
    RenderedBody(body, segs);
  }

  /** Which status paragraph or list `MessageList` renders. */
  datatype View = LoadingView | ErrorView(message: string) | EmptyView | ListView(items: seq<Message>)

  // The four JSX guards, exactly as the component writes them.
  predicate ShowsLoading(isLoading: bool, error: string, messages: seq<Message>) { isLoading }
  predicate ShowsError(isLoading: bool, error: string, messages: seq<Message>) { !isLoading && error != "" }
  predicate ShowsEmpty(isLoading: bool, error: string, messages: seq<Message>) { !isLoading && error == "" && |messages| == 0 }
  predicate ShowsList(isLoading: bool, error: string, messages: seq<Message>) { !isLoading && error == "" && |messages| > 0 }

  /** The one view whose guard holds. */
  function SelectView(isLoading: bool, error: string, messages: seq<Message>): (v: View)
    ensures v.LoadingView? <==> ShowsLoading(isLoading, error, messages)
    ensures v.ErrorView? <==> ShowsError(isLoading, error, messages)
    ensures v.EmptyView? <==> ShowsEmpty(isLoading, error, messages)
    ensures v.ListView? <==> ShowsList(isLoading, error, messages)
    ensures v.ErrorView? ==> v.message == error
    ensures v.ListView? ==> v.items == messages
  {
    if isLoading then LoadingView
    else if error != "" then ErrorView(error)
    else if |messages| == 0 then EmptyView
    else ListView(messages)
  }

  /**
   * Exactly one of the four guards holds; loading wins over an error, and the
   * list needs not loading, no error and at least one message.
   */
  lemma ExactlyOneView(isLoading: bool, error: string, messages: seq<Message>)
    ensures var guards := [ShowsLoading(isLoading, error, messages), ShowsError(isLoading, error, messages),
                           ShowsEmpty(isLoading, error, messages), ShowsList(isLoading, error, messages)];
      exists k :: 0 <= k < 4 && guards[k] && forall l :: 0 <= l < 4 && l != k ==> !guards[l]
    ensures isLoading ==> !ShowsError(isLoading, error, messages)
  {
    var guards := [ShowsLoading(isLoading, error, messages), ShowsError(isLoading, error, messages),
                   ShowsEmpty(isLoading, error, messages), ShowsList(isLoading, error, messages)];
    var k := if isLoading then 0 else if error != "" then 1 else if |messages| == 0 then 2 else 3;
    assert guards[k] && forall l :: 0 <= l < 4 && l != k ==> !guards[l];
  }
}
