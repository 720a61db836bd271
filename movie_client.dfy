/** The movie recommender's client helpers: `esc` (HTML escaping),
    `parseRt` (a Rotten Tomatoes percentage), `getSorted` (the result
    order), `buildOscarHtml` (the awards badge) and the year shown for a
    movie. */
module MovieClient {
  import opened Base
  import opened Text
  import opened MovieServer

  // ===========================================================================
  // HTML escaping
  // ===========================================================================

  /** `esc` (app.js): '' for null or undefined; otherwise `&`, `<`, `>`, `"`
      and `'` replaced, one after the other and `&` first, by their
      entities. */
  function Esc(str: Option<string>): (r: string)
    ensures str.None? ==> r == ""
    ensures str.Some? ==> |r| >= |str.value|
    // none of `<`, `>`, `"` and `'` is left, so the text can neither open
    // a tag nor close an attribute value
    ensures Safe(r)
    // text without any of the five characters is left as it is
    ensures str.Some? && Plain(str.value) ==> r == str.value
  {
    if str.None? then ""
    else
      var r := ReplaceAll(ReplaceAll(ReplaceAll(ReplaceAll(ReplaceAll(
        str.value, '&', "&amp;"), '<', "&lt;"), '>', "&gt;"), '"', "&quot;"), '\'', "&#039;");
      EscSteps(str.value);
      r
  }

  /** What the five replacements leave: none of `<`, `>`, `"` and `'`, at
      least as many characters, and a plain text as it was. */
  /** A replaced character is gone unless its replacement holds it. */
  lemma Dropped(t: string, c: char, rep: string)
    requires c !in rep
    ensures c !in ReplaceAll(t, c, rep)
  {
    ReplaceAllChars(t, c, rep, c);
  }

  /** A missing character stays missing when the replacement lacks it. */
  lemma Kept(t: string, c: char, rep: string, x: char)
    requires x !in t && x !in rep
    ensures x !in ReplaceAll(t, c, rep)
  {
    ReplaceAllChars(t, c, rep, x);
  }

  /** None of the entities holds `<`, `>`, `"` or `'`. */
  lemma EntitiesFree()
    ensures '<' !in "&lt;" && '<' !in "&gt;" && '>' !in "&gt;"
    ensures '<' !in "&quot;" && '>' !in "&quot;" && '"' !in "&quot;"
    ensures '<' !in "&#039;" && '>' !in "&#039;" && '"' !in "&#039;" && '\'' !in "&#039;"
  {
  }

  /** What the five replacements leave: none of `<`, `>`, `"` and `'`, at
      least as many characters, and a plain text as it was. */
  lemma EscSteps(s: string)
    ensures var r := ReplaceAll(ReplaceAll(ReplaceAll(ReplaceAll(ReplaceAll(
        s, '&', "&amp;"), '<', "&lt;"), '>', "&gt;"), '"', "&quot;"), '\'', "&#039;");
      Safe(r) && |r| >= |s| && (Plain(s) ==> r == s)
  {
    EntitiesFree();
    var amp := ReplaceAll(s, '&', "&amp;");
    var lt := ReplaceAll(amp, '<', "&lt;");
    var gt := ReplaceAll(lt, '>', "&gt;");
    var quot := ReplaceAll(gt, '"', "&quot;");
    Dropped(amp, '<', "&lt;");
    Kept(lt, '>', "&gt;", '<');
    Dropped(lt, '>', "&gt;");
    Kept(gt, '"', "&quot;", '<');
    Kept(gt, '"', "&quot;", '>');
    Dropped(gt, '"', "&quot;");
    Kept(quot, '\'', "&#039;", '<');
    Kept(quot, '\'', "&#039;", '>');
    Kept(quot, '\'', "&#039;", '"');
    Dropped(quot, '\'', "&#039;");
    var r := ReplaceAll(quot, '\'', "&#039;");
    assert Safe(r) by {
      forall k | 0 <= k < |r| ensures r[k] != '<' && r[k] != '>' && r[k] != '"' && r[k] != '\'' {
        assert r[k] in r;
      }
    }
    if Plain(s) {
      assert '&' !in s && '<' !in s && '>' !in s && '"' !in s && '\'' !in s;
    }
  }

  /** The entity a single character is written as. */
  function EscChar(c: char): string {
    if c == '&' then "&amp;"
    else if c == '<' then "&lt;"
    else if c == '>' then "&gt;"
    else if c == '"' then "&quot;"
    else if c == '\'' then "&#039;"
    else [c]
  }

  /** Escaping character by character. */
  function EscChars(s: string): string {
    if s == [] then "" else EscChar(s[0]) + EscChars(s[1..])
  }

  /** None of the four characters that can end an attribute or start a tag. */
  predicate Safe(s: string) {
    forall k | 0 <= k < |s| :: s[k] != '<' && s[k] != '>' && s[k] != '"' && s[k] != '\''
  }

  /** None of the five characters `esc` replaces. */
  predicate Plain(s: string) {
    forall k | 0 <= k < |s| :: s[k] != '&' && s[k] != '<' && s[k] != '>' && s[k] != '"' && s[k] != '\''
  }

  lemma ReplaceAllSingle(c: char, d: char, rep: string)
    ensures ReplaceAll([c], d, rep) == if c == d then rep else [c]
  {
    assert [c][1..] == [];
    assert rep + "" == rep && [c] + "" == [c];
  }

  /** The replacements after the first leave an entity alone once it is
      written. */
  lemma EscTail(e: string)
    requires forall k | 0 <= k < |e| :: e[k] != '<' && e[k] != '>' && e[k] != '"' && e[k] != '\''
    ensures ReplaceAll(ReplaceAll(ReplaceAll(ReplaceAll(e, '<', "&lt;"), '>', "&gt;"), '"', "&quot;"), '\'', "&#039;") == e
  {
    assert '<' !in e;
    assert '>' !in e;
    assert '"' !in e;
    assert '\'' !in e;
  }

  lemma EscAmp(c: char)
    requires c == '&'
    ensures Esc(Some([c])) == "&amp;"
  {
    ReplaceAllSingle(c, '&', "&amp;");
    AmpStable();
  }

  lemma AmpStable()
    ensures ReplaceAll(ReplaceAll(ReplaceAll(ReplaceAll("&amp;", '<', "&lt;"), '>', "&gt;"), '"', "&quot;"), '\'', "&#039;") == "&amp;"
  {
    EscTail("&amp;");
  }

  lemma EscLt(c: char)
    requires c == '<'
    ensures Esc(Some([c])) == "&lt;"
  {
    ReplaceAllSingle(c, '&', "&amp;");
    ReplaceAllSingle(c, '<', "&lt;");
    LtStable();
  }

  lemma LtStable()
    ensures ReplaceAll(ReplaceAll(ReplaceAll("&lt;", '>', "&gt;"), '"', "&quot;"), '\'', "&#039;") == "&lt;"
  {
    assert '>' !in "&lt;";
    assert '"' !in "&lt;";
    assert '\'' !in "&lt;";
  }

  lemma EscGt(c: char)
    requires c == '>'
    ensures Esc(Some([c])) == "&gt;"
  {
    ReplaceAllSingle(c, '&', "&amp;");
    ReplaceAllSingle(c, '<', "&lt;");
    ReplaceAllSingle(c, '>', "&gt;");
    assert '"' !in "&gt;";
    assert '\'' !in "&gt;";
  }

  lemma EscQuot(c: char)
    requires c == '"'
    ensures Esc(Some([c])) == "&quot;"
  {
    ReplaceAllSingle(c, '&', "&amp;");
    ReplaceAllSingle(c, '<', "&lt;");
    ReplaceAllSingle(c, '>', "&gt;");
    ReplaceAllSingle(c, '"', "&quot;");
    assert '\'' !in "&quot;";
  }

  lemma EscApos(c: char)
    requires c == '\''
    ensures Esc(Some([c])) == "&#039;"
  {
    ReplaceAllSingle(c, '&', "&amp;");
    ReplaceAllSingle(c, '<', "&lt;");
    ReplaceAllSingle(c, '>', "&gt;");
    ReplaceAllSingle(c, '"', "&quot;");
    ReplaceAllSingle(c, '\'', "&#039;");
  }

  /** The five replacements applied to one character give its entity. */
  lemma EscOneChar(c: char)
    ensures Esc(Some([c])) == EscChar(c)
  {
    if c == '&' {
      EscAmp(c);
    } else if c == '<' {
      EscLt(c);
    } else if c == '>' {
      EscGt(c);
    } else if c == '"' {
      EscQuot(c);
    } else if c == '\'' {
      EscApos(c);
    } else {
    }
  }

  /** The five replacements distribute over concatenation. */
  lemma EscAppend(a: string, b: string)
    ensures Esc(Some(a + b)) == Esc(Some(a)) + Esc(Some(b))
  {
    ReplaceAllAppend(a, b, '&', "&amp;");
    var a1, b1 := ReplaceAll(a, '&', "&amp;"), ReplaceAll(b, '&', "&amp;");
    ReplaceAllAppend(a1, b1, '<', "&lt;");
    var a2, b2 := ReplaceAll(a1, '<', "&lt;"), ReplaceAll(b1, '<', "&lt;");
    ReplaceAllAppend(a2, b2, '>', "&gt;");
    var a3, b3 := ReplaceAll(a2, '>', "&gt;"), ReplaceAll(b2, '>', "&gt;");
    ReplaceAllAppend(a3, b3, '"', "&quot;");
    var a4, b4 := ReplaceAll(a3, '"', "&quot;"), ReplaceAll(b3, '"', "&quot;");
    ReplaceAllAppend(a4, b4, '\'', "&#039;");
  }

  /** `esc` writes each character as its entity: replacing `&` first means
      no entity is escaped twice. */
  lemma {:induction false} EscIsPerChar(s: string)
    ensures Esc(Some(s)) == EscChars(s)
  {
    if s != [] {
      EscIsPerChar(s[1..]);
      assert s == [s[0]] + s[1..];
      EscAppend([s[0]], s[1..]);
      EscOneChar(s[0]);
    }
  }

  /** What an HTML parser reads from escaped text: each of the five entities
      is read back as its character. */
  function Unescape(t: string): string
    decreases |t|
  {
    if t == [] then ""
    else if |t| >= 5 && t[..5] == "&amp;" then "&" + Unescape(t[5..])
    else if |t| >= 4 && t[..4] == "&lt;" then "<" + Unescape(t[4..])
    else if |t| >= 4 && t[..4] == "&gt;" then ">" + Unescape(t[4..])
    else if |t| >= 6 && t[..6] == "&quot;" then "\"" + Unescape(t[6..])
    else if |t| >= 6 && t[..6] == "&#039;" then "'" + Unescape(t[6..])
    else [t[0]] + Unescape(t[1..])
  }

  /** Reading an entity, or a plain character, then the rest. */
  lemma UnescapeEntity(e: string, c: char, rest: string)
    requires e in ["&amp;", "&lt;", "&gt;", "&quot;", "&#039;"]
    requires c == (if e == "&amp;" then '&' else if e == "&lt;" then '<'
      else if e == "&gt;" then '>' else if e == "&quot;" then '"' else '\'')
    ensures Unescape(e + rest) == [c] + Unescape(rest)
  {
    var t := e + rest;
    assert t[..|e|] == e && t[|e|..] == rest;
    if e == "&lt;" {
      assert t[1] == 'l';
    } else if e == "&gt;" {
      assert t[1] == 'g';
    } else if e == "&quot;" {
      assert t[1] == 'q';
    } else if e == "&#039;" {
      assert t[1] == '#';
    }
  }

  lemma UnescapeStep(c: char, rest: string)
    ensures Unescape(EscChar(c) + rest) == [c] + Unescape(rest)
  {
    if c == '&' || c == '<' || c == '>' || c == '"' || c == '\'' {
      UnescapeEntity(EscChar(c), c, rest);
    } else {
      var t := [c] + rest;
      assert t[0] == c && t[1..] == rest;
    }
  }

  /** Reading escaped text back gives the original text. */
  lemma {:induction false} UnescapeEsc(str: string)
    ensures Unescape(Esc(Some(str))) == str
  {
    EscIsPerChar(str);
    UnescapeChars(str);
  }

  lemma {:induction false} UnescapeChars(s: string)
    ensures Unescape(EscChars(s)) == s
  {
    if s != [] {
      UnescapeChars(s[1..]);
      UnescapeStep(s[0], EscChars(s[1..]));
      assert s == [s[0]] + s[1..];
    }
  }

  // ===========================================================================
  // Rotten Tomatoes percentages
  // ===========================================================================

  /** `parseRt` (app.js): 0 for a missing or empty value; otherwise the
      first '%' removed and the leading integer read, 0 when there is none. */
  function ParseRt(val: Option<string>): (r: int)
    ensures val.None? || val.value == "" ==> r == 0
    ensures val.Some? && ParseInt(RemoveFirst(val.value, '%')).None? ==> r == 0
  {
    if val.None? || val.value == "" then 0
    else ParseInt(RemoveFirst(val.value, '%')).GetOr(0)
  }

  lemma {:induction false} RemoveFirstAfter(a: string, b: string, c: char)
    requires c !in a
    ensures RemoveFirst(a + b, c) == a + RemoveFirst(b, c)
  {
    if a != [] {
      var ab := a + b;
      assert ab[0] == a[0] && ab[1..] == a[1..] + b;
      assert c !in a[1..];
      RemoveFirstAfter(a[1..], b, c);
      assert RemoveFirst(ab, c) == [a[0]] + RemoveFirst(a[1..] + b, c);
      assert a == [a[0]] + a[1..];
    } else {
      assert a + b == b;
    }
  }

  /** A score written as OMDB writes it, `n%`, reads back as `n`. */
  lemma ParseRtPercent(n: nat)
    ensures ParseRt(Some(DecimalString(n) + "%")) == n
  {
    var d := DecimalString(n);
    assert '%' !in d by {
      forall k | 0 <= k < |d| ensures d[k] != '%' {
        assert IsDigit(d[k]);
      }
    }
    RemoveFirstAfter(d, "%", '%');
    assert RemoveFirst("%", '%') == "";
    assert d + "" == d;
    ParseDecimal(n);
  }

  // ===========================================================================
  // Sorting
  // ===========================================================================

  /** Keys never increase along `xs`. */
  predicate Descending<T>(xs: seq<T>, key: T -> int) {
    forall i, j | 0 <= i < j < |xs| :: key(xs[i]) >= key(xs[j])
  }

  /** The elements of `xs` whose key is `k`, in order. */
  function WithKey<T>(xs: seq<T>, key: T -> int, k: int): seq<T> {
    if xs == [] then []
    else (if key(xs[0]) == k then [xs[0]] else []) + WithKey(xs[1..], key, k)
  }

  /** `x` placed before the first element whose key is not greater than
      its own. */
  function Insert<T>(x: T, ys: seq<T>, key: T -> int): (r: seq<T>)
    ensures multiset(r) == multiset(ys) + multiset{x}
  {
    if ys == [] || key(ys[0]) <= key(x) then [x] + ys
    else
      assert ys == [ys[0]] + ys[1..];
      [ys[0]] + Insert(x, ys[1..], key)
  }

  /** A head whose key bounds the keys of a descending tail gives a
      descending list. */
  lemma ConsDescending<T>(h: T, t: seq<T>, key: T -> int)
    requires Descending(t, key)
    requires forall j | 0 <= j < |t| :: key(h) >= key(t[j])
    ensures Descending([h] + t, key)
  {
    var r := [h] + t;
    forall i, j | 0 <= i < j < |r| ensures key(r[i]) >= key(r[j]) {
      assert r[j] == t[j - 1];
      if i > 0 {
        assert r[i] == t[i - 1];
      }
    }
  }

  /** Inserting into a descending list keeps it descending. */
  lemma {:induction false} InsertDescending<T>(x: T, ys: seq<T>, key: T -> int)
    requires Descending(ys, key)
    ensures Descending(Insert(x, ys, key), key)
  {
    if ys == [] || key(ys[0]) <= key(x) {
      ConsDescending(x, ys, key);
    } else {
      var tail := ys[1..];
      assert Descending(tail, key) by {
        forall i, j | 0 <= i < j < |tail| ensures key(tail[i]) >= key(tail[j]) {
          assert tail[i] == ys[i + 1] && tail[j] == ys[j + 1];
        }
      }
      InsertDescending(x, tail, key);
      var rest := Insert(x, tail, key);
      forall j | 0 <= j < |rest| ensures key(ys[0]) >= key(rest[j]) {
        assert rest[j] in multiset(tail) + multiset{x};
        if rest[j] in multiset(tail) {
          var m :| 0 <= m < |tail| && tail[m] == rest[j];
          assert ys[m + 1] == rest[j];
        }
      }
      ConsDescending(ys[0], rest, key);
    }
  }

  /** The stable descending sort `copy.sort((a, b) => key(b) - key(a))`:
      a fresh sequence, ordered by decreasing key, holding the same
      elements. */
  function SortDesc<T>(xs: seq<T>, key: T -> int): (r: seq<T>)
    ensures multiset(r) == multiset(xs)
    ensures Descending(r, key)
  {
    if xs == [] then []
    else
      assert xs == [xs[0]] + xs[1..];
      var sorted := SortDesc(xs[1..], key);
      InsertDescending(xs[0], sorted, key);
      Insert(xs[0], sorted, key)
  }

  lemma {:induction false} WithKeyInsert<T>(x: T, ys: seq<T>, key: T -> int, k: int)
    ensures WithKey(Insert(x, ys, key), key, k)
      == (if key(x) == k then [x] + WithKey(ys, key, k) else WithKey(ys, key, k))
  {
    if ys == [] || key(ys[0]) <= key(x) {
      assert ([x] + ys)[1..] == ys;
    } else {
      WithKeyInsert(x, ys[1..], key, k);
      var rest := Insert(x, ys[1..], key);
      assert ([ys[0]] + rest)[1..] == rest;
      if key(x) == k {
        assert key(ys[0]) != k;
      }
    }
  }

  /** The sort is stable: the elements sharing a key keep their original
      order. */
  lemma {:induction false} SortDescStable<T>(xs: seq<T>, key: T -> int, k: int)
    ensures WithKey(SortDesc(xs, key), key, k) == WithKey(xs, key, k)
  {
    if xs != [] {
      SortDescStable(xs[1..], key, k);
      WithKeyInsert(xs[0], SortDesc(xs[1..], key), key, k);
    }
  }

  /** A list already in descending order is left as it is. */
  lemma {:induction false} SortDescSorted<T>(xs: seq<T>, key: T -> int)
    requires Descending(xs, key)
    ensures SortDesc(xs, key) == xs
  {
    if xs != [] {
      SortDescSorted(xs[1..], key);
      assert xs == [xs[0]] + xs[1..];
      var ys := xs[1..];
      if ys != [] {
        assert key(ys[0]) <= key(xs[0]);
      }
    }
  }

  /** The sort orders `currentSort` selects: 'year', 'rt', or anything else,
      which keeps the server's order. */
  datatype SortMode = ByYear | ByRottenTomatoes | ServerOrder

  /** `parseInt(m.year) || 0`. */
  function YearKey(m: Merged): int {
    ParseInt(m.movie.year.GetOr("")).GetOr(0)
  }

  /** `parseRt(m.rtRating)`. */
  function RtKey(m: Merged): int {
    ParseRt(m.movie.rtRating)
  }

  /** `getSorted` (app.js): a sorted copy of the recommendations. */
  function GetSorted(recs: seq<Merged>, mode: SortMode): (r: seq<Merged>)
    ensures multiset(r) == multiset(recs)
    ensures mode == ServerOrder ==> r == recs
    ensures mode == ByYear ==> Descending(r, YearKey)
    ensures mode == ByRottenTomatoes ==> Descending(r, RtKey)
  {
    match mode
    case ByYear => SortDesc(recs, YearKey)
    case ByRottenTomatoes => SortDesc(recs, RtKey)
    case ServerOrder => recs
  }

  /** Movies that tie on the sort key keep the server's order. */
  lemma GetSortedStable(recs: seq<Merged>, mode: SortMode, k: int)
    ensures mode == ByYear ==> WithKey(GetSorted(recs, mode), YearKey, k) == WithKey(recs, YearKey, k)
    ensures mode == ByRottenTomatoes ==> WithKey(GetSorted(recs, mode), RtKey, k) == WithKey(recs, RtKey, k)
  {
    SortDescStable(recs, YearKey, k);
    SortDescStable(recs, RtKey, k);
  }

  // ===========================================================================
  // The Oscar badge
  // ===========================================================================

  /** The regular expression `/Nominated for (\d+) Oscar/i` matching at
      `i`: its digits. The digits are the whole run, since the next
      character must be a space. */
  function NominationAt(s: string, i: nat): (r: Option<string>)
    ensures r.Some? ==> r.value != [] && forall k | 0 <= k < |r.value| :: IsDigit(r.value[k])
  {
    var p := i + 14;
    if p <= |s| && Lower(s[i..p]) == "nominated for " then
      var d := DigitPrefix(s[p..], 10);
      var q := p + |d|;
      if d != [] && q + 6 <= |s| && Lower(s[q..q + 6]) == " oscar" then Some(d) else None
    else None
  }

  /** The leftmost match at or after `i`. */
  function NominationFrom(s: string, i: nat): (r: Option<string>)
    ensures r.Some? ==> exists j | i <= j :: NominationAt(s, j) == r && forall k | i <= k < j :: NominationAt(s, k).None?
    ensures r.None? ==> forall k | i <= k :: NominationAt(s, k).None?
    decreases |s| - i
  {
    if i + 14 > |s| then None
    else if NominationAt(s, i).Some? then NominationAt(s, i)
    else NominationFrom(s, i + 1)
  }

  /** `awards.match(/Nominated for (\d+) Oscar/i)?.[1]`. */
  function Nomination(awards: string): (r: Option<string>)
    ensures r.None? <==> forall k :: NominationAt(awards, k).None?
    ensures r.Some? ==> exists j: nat :: NominationAt(awards, j) == r && forall k | 0 <= k < j :: NominationAt(awards, k).None?
    ensures r.Some? ==> r.value != [] && forall k | 0 <= k < |r.value| :: IsDigit(r.value[k])
  {
    NominationFrom(awards, 0)
  }

  /** What the badge shows: won categories, a nomination count, or
      nothing. */
  datatype Badge =
    | Wins(shown: seq<string>, more: nat, all: seq<string>)
    | Nominations(count: string, plural: bool)
    | NoBadge

  /** The badge `buildOscarHtml` (app.js) shows for a movie. */
  function OscarBadge(oscarWins: Option<seq<string>>, awards: Option<string>): (b: Badge)
    // with wins: the first two, the number beyond two, and all of them
    ensures oscarWins.Some? && oscarWins.value != [] ==> var w := oscarWins.value;
      && b.Wins?
      && b.shown == w[..if |w| < 2 then |w| else 2]
      && (b.more > 0 <==> |w| > 2)
      && (|w| > 2 ==> b.more == |w| - 2)
      && b.all == w
    // without: the nomination count when the awards text has one
    ensures (oscarWins.None? || oscarWins.value == []) ==>
      && (b.NoBadge? <==> awards.None? || Nomination(awards.value).None?)
      && (b.Nominations? <==> awards.Some? && Nomination(awards.value).Some?)
      && (b.Nominations? ==> Nomination(awards.value) == Some(b.count))
    ensures b.Nominations? ==> (b.plural <==> DigitsValue(b.count, 10) > 1)
  {
    if oscarWins.Some? && |oscarWins.value| > 0 then
      var w := oscarWins.value;
      Wins(w[..if |w| < 2 then |w| else 2], if |w| > 2 then |w| - 2 else 0, w)
    else if awards.None? || awards.value == "" then NoBadge
    else match Nomination(awards.value)
      case None => NoBadge
      case Some(d) =>
        ParseDigits(d);
        Nominations(d, ParseInt(d).GetOr(0) > 1)
  }

  function Map(xs: seq<string>, f: string -> string): (r: seq<string>)
    ensures |r| == |xs| && forall i | 0 <= i < |xs| :: r[i] == f(xs[i])
  {
    seq(|xs|, i requires 0 <= i < |xs| => f(xs[i]))
  }

  /** The badge's HTML: one `oscar-badge` span, or nothing. */
  function BadgeHtml(b: Badge): (r: string)
    ensures r == "" <==> b.NoBadge?
    ensures r != "" ==> |r| > 24 && r[..24] == "<span class=\"oscar-badge" && r[|r| - 7..] == "</span>"
  {
    var open := "<span class=\"oscar-badge";
    match b
    case Wins(shown, more, all) =>
      var cats := Join(Map(shown, c => Esc(Some(c))), " · ");
      var extra := if more > 0 then "<span class=\"oscar-more\"> +" + DecimalString(more) + " more</span>" else "";
      var tooltip := if more > 0 then "<span class=\"oscar-tooltip\">" + Join(Map(all, c => "🏆 " + Esc(Some(c))), "<br>") + "</span>" else "";
      var inner := (if more > 0 then " has-tooltip" else "") + "\">🏆 " + cats + extra + tooltip;
      Framed(open, inner, "</span>");
      open + inner + "</span>"
    case Nominations(count, plural) =>
      var inner := " oscar-nom\">★ " + count + " Oscar nom" + (if plural then "s" else "");
      Framed(open, inner, "</span>");
      open + inner + "</span>"
    case NoBadge => ""
  }

  lemma Framed(a: string, m: string, z: string)
    ensures (a + m + z)[..|a|] == a && (a + m + z)[|a + m + z| - |z|..] == z
  {
  }

  /** `buildOscarHtml` (app.js): empty exactly when there are no wins and
      the awards text has no nomination count. */
  function BuildOscarHtml(oscarWins: Option<seq<string>>, awards: Option<string>): (r: string)
    ensures r == "" <==> (oscarWins.None? || oscarWins.value == []) && (awards.None? || Nomination(awards.value).None?)
  {
    BadgeHtml(OscarBadge(oscarWins, awards))
  }

  lemma LowerNominatedFor(s: string)
    requires s == "Nominated for "
    ensures Lower(s) == "nominated for "
  {
    var l := Lower(s);
    assert l[0] == 'n';
    forall i | 1 <= i < 14 ensures l[i] == "nominated for "[i] {
      assert !('A' <= s[i] <= 'Z');
    }
  }

  lemma LowerOscar(s: string)
    requires s == " Oscar"
    ensures Lower(s) == " oscar"
  {
    var l := Lower(s);
    assert l[1] == 'o';
    forall i | 0 <= i < 6 && i != 1 ensures l[i] == " oscar"[i] {
      assert !('A' <= s[i] <= 'Z');
    }
  }

  /** A count followed by " Oscar" right after "Nominated for " at the start
      of the awards text is the nomination count. */
  lemma NominationAtStart(s: string, d: char)
    requires |s| >= 21 && s[..14] == "Nominated for " && IsDigit(d) && s[14] == d && s[15..21] == " Oscar"
    ensures Nomination(s) == Some([d])
  {
    LowerNominatedFor(s[0..14]);
    assert s[14..][1] == ' ';
    assert DigitPrefix(s[14..], 10) == [d];
    LowerOscar(s[15..21]);
    assert NominationAt(s, 0) == Some([d]);
  }

  /** Awards text that opens with a one-digit nomination count shows that
      count, pluralised when it is more than one. */
  lemma NominationBadge(d: char, tail: string)
    requires IsDigit(d)
    ensures OscarBadge(None, Some("Nominated for " + [d] + " Oscar" + tail)) == Nominations([d], d > '1')
  {
    var s := "Nominated for " + [d] + " Oscar" + tail;
    Pieces("Nominated for ", d, " Oscar", tail);
    NominationAtStart(s, d);
    var b := OscarBadge(None, Some(s));
    assert b.Nominations? && b.count == [d];
    assert DigitsValue([d], 10) == DigitValue(d);
  }

  lemma Pieces(a: string, d: char, c: string, tail: string)
    ensures (a + [d] + c + tail)[..|a|] == a
    ensures (a + [d] + c + tail)[|a|] == d
    ensures (a + [d] + c + tail)[|a| + 1..|a| + 1 + |c|] == c
  {
    var s := a + [d] + c + tail;
    assert s[|a| + 1..|a| + 1 + |c|] == c by {
      forall k | 0 <= k < |c| ensures s[|a| + 1 + k] == c[k] { }
    }
  }

  // ===========================================================================
  // The year shown
  // ===========================================================================

  /** `year?.match(/\d{4}/)?.[0] || year`: the first run of four digits, or
      the year text as it is. */
  function DisplayYear(year: Option<string>): (r: Option<string>)
    ensures year.None? ==> r.None?
    ensures year.Some? && FirstYear(year.value).None? ==> r == year
    ensures year.Some? && FirstYear(year.value).Some? ==> r.Some? && |r.value| == 4
  {
    if year.None? then None else Some(FirstYear(year.value).GetOr(year.value))
  }

  /** The seed heading: `(title || 'Unknown')`, then ` (year)` when the
      seed has a year. */
  function SeedHeading(seed: Movie): (r: string)
    // the title, or "Unknown" when it is missing or empty
    ensures var title := if seed.title.Some? && seed.title.value != "" then seed.title.value else "Unknown";
      && ((seed.year.None? || seed.year.value == "") ==> r == title)
      // then the year shown in parentheses: its first four-digit run, or
      // the year text as it is
      && (seed.year.Some? && seed.year.value != "" ==>
            r == title + " (" + FirstYear(seed.year.value).GetOr(seed.year.value) + ")")
  {
    var title := if seed.title.Some? && seed.title.value != "" then seed.title.value else "Unknown";
    var year := if seed.year.Some? && seed.year.value != "" then " (" + DisplayYear(seed.year).value + ")" else "";
    title + year
  }

  /** The client shows the same year for a movie as the server read for the
      seed from the same OMDB record, when the record's year has four
      digits in a row. */
  lemma DisplayYearMatchesSeedYear(rec: OmdbRecord)
    requires SeedYear(Some(rec)) != ""
    ensures DisplayYear(ParseOmdb(Some(rec)).year) == Some(SeedYear(Some(rec)))
  {
  }
}
