/** The `.env` update at the end of the Screenwriter Library's setup script:
    `setEnv(content, key, val)` writes `key=val` into the file's text, and
    the script writes the four database ids one after the other. Reading
    and writing the file are not part of this model; the file's text is a
    string. */
module SetupEnv {
  import opened Base
  import opened Text

  // ===========================================================================
  // Keys, lines and the `.*` run
  // ===========================================================================

  /** A character that is literal in a regular expression and may appear in
      an environment variable name. */
  predicate KeyChar(c: char) {
    ('A' <= c <= 'Z') || ('a' <= c <= 'z') || ('0' <= c <= '9') || c == '_'
  }

  /** A key whose `RegExp` source matches exactly the key itself. */
  predicate LiteralKey(key: string) {
    key != [] && forall k | 0 <= k < |key| :: KeyChar(key[k])
  }

  /** No line terminator: what `.` matches throughout. */
  predicate OneLine(s: string) {
    forall k | 0 <= k < |s| :: !IsLineTerminator(s[k])
  }

  /** Where the greedy `.*` that starts at `i` stops: the first line
      terminator at or after `i`, or the end. */
  function LineEnd(s: string, i: nat): (j: nat)
    requires i <= |s|
    ensures i <= j <= |s|
    ensures OneLine(s[i..j])
    ensures j < |s| ==> IsLineTerminator(s[j])
    decreases |s| - i
  {
    if i == |s| || IsLineTerminator(s[i]) then i
    else
      var j := LineEnd(s, i + 1);
      assert s[i..j] == [s[i]] + s[i + 1..j];
      j
  }

  /** The run ends where the text after `i` first has a line terminator. */
  lemma {:induction false} LineEndIs(s: string, i: nat, j: nat)
    requires i <= j <= |s| && OneLine(s[i..j])
    requires j < |s| ==> IsLineTerminator(s[j])
    ensures LineEnd(s, i) == j
    decreases j - i
  {
    if i < j {
      assert s[i] == s[i..j][0];
      assert s[i + 1..j] == s[i..j][1..];
      LineEndIs(s, i + 1, j);
    }
  }

  /** `GetSubstitution` for a pattern without capture groups: in the
      replacement, `$$` is a dollar sign, `$&` the match, `` $` `` the text
      before it and `$'` the text after it; any other `$` is literal. */
  function Substitute(rep: string, matched: string, before: string, after: string): (r: string)
    ensures (forall k | 0 <= k < |rep| :: rep[k] != '$') ==> r == rep
  {
    if rep == [] then ""
    else if rep[0] == '$' && |rep| >= 2 && rep[1] == '$' then "$" + Substitute(rep[2..], matched, before, after)
    else if rep[0] == '$' && |rep| >= 2 && rep[1] == '&' then matched + Substitute(rep[2..], matched, before, after)
    else if rep[0] == '$' && |rep| >= 2 && rep[1] == '`' then before + Substitute(rep[2..], matched, before, after)
    else if rep[0] == '$' && |rep| >= 2 && rep[1] == '\'' then after + Substitute(rep[2..], matched, before, after)
    else
      var r := [rep[0]] + Substitute(rep[1..], matched, before, after);
      assert rep == [rep[0]] + rep[1..];
      r
  }

  // ===========================================================================
  // setEnv as written
  // ===========================================================================

  /** `key=val`. */
  function Line(key: string, val: string): string {
    key + "=" + val
  }

  /** `content.replace(new RegExp(`${key}=.*`), line)`: the first `key=`
      and the rest of its line replaced, or nothing when there is none. */
  function ReplaceKeyLine(content: string, key: string, line: string): string {
    match Find(content, key + "=")
    case None => content
    case Some(i) => ReplaceAt(content, key, line, i)
  }

  /** The replacement of the `key=` at `i` and the rest of its line. */
  function ReplaceAt(content: string, key: string, line: string, i: nat): string
    requires i + |key| + 1 <= |content|
  {
    var j := LineEnd(content, i + |key| + 1);
    content[..i] + Substitute(line, content[i..j], content[..i], content[j..]) + content[j..]
  }

  /** The replacement at the first `key=`. */
  lemma ReplaceKeyLineAt(content: string, key: string, line: string, i: nat)
    requires Find(content, key + "=") == Some(i)
    ensures i + |key| + 1 <= |content|
    ensures var j := LineEnd(content, i + |key| + 1);
      ReplaceKeyLine(content, key, line)
      == content[..i] + Substitute(line, content[i..j], content[..i], content[j..]) + content[j..]
  {
    FoundWithin(content, key + "=", i);
    assert ReplaceKeyLine(content, key, line) == ReplaceAt(content, key, line, i);
  }

  lemma FoundWithin(s: string, p: string, i: nat)
    requires Find(s, p) == Some(i)
    ensures i + |p| <= |s|
  {
  }

  /** `setEnv` (setup.js): when the text mentions the key anywhere, the first
      `key=` and the rest of its line are replaced by `key=val`; otherwise
      a line break and `key=val` are appended. */
  function SetEnv(content: string, key: string, val: string): (r: string)
    requires LiteralKey(key)
    // a key the text does not mention is appended on a line of its own
    ensures !Contains(content, key) ==> r == content + "\n" + Line(key, val)
    // a key the text mentions, but never followed by `=`, is not written
    ensures Contains(content, key) && !Contains(content, key + "=") ==> r == content
    // either way the text mentions the key afterwards
    ensures Contains(r, key)
  {
    if Contains(content, key) then
      var r := ReplaceKeyLine(content, key, Line(key, val));
      match Find(content, key + "=")
      case None => r
      case Some(i) =>
        ReplaceKeyLineAt(content, key, Line(key, val), i);
        var j := LineEnd(content, i + |key| + 1);
        KeyLineStarts(content, key, val, i, j);
        OccursContains(r, key, i);
        r
    else
      var r := content + "\n" + Line(key, val);
      AppendedLine(content, key, val);
      KeyEqualsHasKey(r, key, |content| + 1);
      r
  }

  /** A replacement text that starts with `$`-free text starts with it
      after the substitution too. */
  lemma {:induction false} SubstituteLiteral(a: string, rest: string, matched: string, before: string, after: string)
    requires NoDollar(a)
    ensures Substitute(a + rest, matched, before, after) == a + Substitute(rest, matched, before, after)
  {
    if a != [] {
      assert (a + rest)[0] == a[0] && (a + rest)[1..] == a[1..] + rest;
      SubstituteLiteral(a[1..], rest, matched, before, after);
    } else {
      assert a + rest == rest;
    }
  }

  /** The line written in place of the first `key=` still starts with the
      key. */
  lemma KeyLineStarts(content: string, key: string, val: string, i: nat, j: nat)
    requires LiteralKey(key) && i <= j <= |content|
    ensures OccursAt(content[..i] + Substitute(Line(key, val), content[i..j], content[..i], content[j..]) + content[j..], key, i)
  {
    var sub := Substitute(Line(key, val), content[i..j], content[..i], content[j..]);
    assert NoDollar(key + "=") by {
      forall k | 0 <= k < |key| + 1 ensures (key + "=")[k] != '$' {
        if k < |key| {
          assert KeyChar(key[k]);
        }
      }
    }
    assert Line(key, val) == (key + "=") + val;
    SubstituteLiteral(key + "=", val, content[i..j], content[..i], content[j..]);
    var r := content[..i] + sub + content[j..];
    forall k | 0 <= k < |key| ensures r[i + k] == key[k] {
      assert r[i + k] == sub[k];
    }
  }

  /** An occurrence of `key=` is an occurrence of `key`. */
  lemma KeyEqualsHasKey(s: string, key: string, i: nat)
    requires OccursAt(s, key + "=", i)
    ensures OccursAt(s, key, i) && Contains(s, key)
  {
    assert forall k | 0 <= k < |key| :: (key + "=")[k] == key[k];
    assert OccursAt(s, key, i);
    if Find(s, key).None? {
      assert false;
    }
  }

  /** With a value free of `$`, the first `key=` and the rest of its line
      become `key=val`, and the text before and after is unchanged. */
  lemma SetEnvReplaces(content: string, key: string, val: string, i: nat)
    requires LiteralKey(key) && NoDollar(val)
    requires Find(content, key + "=") == Some(i)
    ensures SetEnv(content, key, val)
      == content[..i] + Line(key, val) + content[LineEnd(content, i + |key| + 1)..]
  {
    KeyEqualsHasKey(content, key, i);
    var line := Line(key, val);
    forall k | 0 <= k < |line| ensures line[k] != '$' {
      if k < |key| {
        assert line[k] == key[k];
      } else if k > |key| {
        assert line[k] == val[k - |key| - 1];
      }
    }
    var j := LineEnd(content, i + |key| + 1);
    var sub := Substitute(line, content[i..j], content[..i], content[j..]);
    assert sub == line;
    ReplaceKeyLineAt(content, key, line, i);
  }

  predicate NoDollar(s: string) {
    forall k | 0 <= k < |s| :: s[k] != '$'
  }

  /** Two texts that agree up to the end of an occurrence at `i` have the
      same occurrences at or before `i`. */
  lemma SamePrefixOccurs(a: string, b: string, p: string, i: nat)
    requires i + |p| <= |a| && i + |p| <= |b|
    requires a[..i + |p|] == b[..i + |p|]
    ensures forall q | 0 <= q <= i :: OccursAt(a, p, q) <==> OccursAt(b, p, q)
  {
    forall q | 0 <= q <= i ensures OccursAt(a, p, q) <==> OccursAt(b, p, q) {
      forall m | q <= m < q + |p| ensures a[m] == b[m] {
        assert a[m] == a[..i + |p|][m];
        assert b[m] == b[..i + |p|][m];
      }
    }
  }

  /** A text whose first `key=` line already reads `key=val` is left as it is. */
  lemma SetEnvFixed(once: string, key: string, val: string, i: nat)
    requires LiteralKey(key) && NoDollar(val)
    requires Find(once, key + "=") == Some(i)
    requires i + |key| + 1 + |val| <= |once|
    requires once[i + |key| + 1..i + |key| + 1 + |val|] == val
    requires LineEnd(once, i + |key| + 1) == i + |key| + 1 + |val|
    ensures SetEnv(once, key, val) == once
  {
    SetEnvReplaces(once, key, val, i);
    assert OccursAt(once, key + "=", i);
    SpliceSame(once, key, val, i);
  }

  /** Putting `key=val` back where it already stands changes nothing. */
  lemma SpliceSame(s: string, key: string, val: string, i: nat)
    requires OccursAt(s, key + "=", i)
    requires i + |key| + 1 + |val| <= |s|
    requires s[i + |key| + 1..i + |key| + 1 + |val|] == val
    ensures s[..i] + Line(key, val) + s[i + |key| + 1 + |val|..] == s
  {
    var m := i + |key| + 1;
    var e := m + |val|;
    assert s[i..m] == key + "=";
    assert s == s[..i] + s[i..m] + s[m..e] + s[e..];
  }

  /** When the text does not mention the key, no `key=` starts in it or at
      the line break appended after it. */
  lemma NoKeyBeforeBreak(content: string, key: string, rest: string, q: nat)
    requires LiteralKey(key) && !Contains(content, key)
    requires q <= |content|
    ensures !OccursAt(content + "\n" + rest, key + "=", q)
  {
    var s := content + "\n" + rest;
    var p := key + "=";
    if q + |key| <= |content| {
      if OccursAt(s, p, q) {
        assert OccursAt(content, key, q) by {
          forall k | 0 <= k < |key| ensures content[q + k] == key[k] {
            assert s[q + k] == p[k];
          }
        }
      }
    } else {
      var k := |content| - q;
      assert s[q + k] == '\n';
      assert p[k] == key[k];
      assert KeyChar(key[k]);
    }
  }

  /** Writing a key the text does not mention, then writing it again,
      rewrites the appended line to itself. */
  lemma IdempotentAbsent(content: string, key: string, val: string)
    requires LiteralKey(key) && OneLine(val) && NoDollar(val)
    requires !Contains(content, key)
    ensures SetEnv(SetEnv(content, key, val), key, val) == SetEnv(content, key, val)
  {
    var line := Line(key, val);
    var p := key + "=";
    var once := content + "\n" + line;
    var at := |content| + 1;
    AppendedLine(content, key, val);
    FindAppended(content, key, val);
    LineEndIs(once, at + |p|, |once|);
    SetEnvFixed(once, key, val, at);
  }

  /** In a text that does not mention the key, the appended line holds the
      first `key=`. */
  lemma FindAppended(content: string, key: string, val: string)
    requires LiteralKey(key) && !Contains(content, key)
    ensures Find(content + "\n" + Line(key, val), key + "=") == Some(|content| + 1)
  {
    var once := content + "\n" + Line(key, val);
    AppendedLine(content, key, val);
    forall q | 0 <= q < |content| + 1 ensures !OccursAt(once, key + "=", q) {
      NoKeyBeforeBreak(content, key, Line(key, val), q);
    }
    FindIs(once, key + "=", |content| + 1);
  }

  /** The appended line: `key=` right after the break, then the value. */
  lemma AppendedLine(content: string, key: string, val: string)
    ensures var once := content + "\n" + Line(key, val);
      var at := |content| + 1;
      && OccursAt(once, key + "=", at)
      && once[at + |key| + 1..] == val
      && once[at + |key| + 1..at + |key| + 1 + |val|] == val
  {
    var once := content + "\n" + Line(key, val);
    var at := |content| + 1;
    assert once[at..] == Line(key, val);
    forall k | 0 <= k < |key| + 1 ensures once[at + k] == (key + "=")[k] {
      assert once[at + k] == once[at..][k];
    }
  }

  /** Splicing `key=val` in at the first `key=` keeps it the first. */
  lemma FindAfterSplice(content: string, key: string, val: string, i: nat, j: nat)
    requires Find(content, key + "=") == Some(i)
    requires i + |key| + 1 <= j <= |content|
    ensures Find(content[..i] + Line(key, val) + content[j..], key + "=") == Some(i)
  {
    var p := key + "=";
    var once := content[..i] + Line(key, val) + content[j..];
    assert once[..i + |p|] == content[..i + |p|];
    SamePrefixOccurs(once, content, p, i);
    FindIs(once, p, i);
  }

  /** After the splice, the `.*` run after `key=` is exactly the value. */
  lemma LineEndAfterSplice(content: string, key: string, val: string, i: nat, j: nat)
    requires OneLine(val)
    requires i <= j <= |content|
    requires j < |content| ==> IsLineTerminator(content[j])
    ensures var once := content[..i] + Line(key, val) + content[j..];
      && i + |key| + 1 + |val| <= |once|
      && once[i + |key| + 1..i + |key| + 1 + |val|] == val
      && LineEnd(once, i + |key| + 1) == i + |key| + 1 + |val|
  {
    var once := content[..i] + Line(key, val) + content[j..];
    var m := i + |key| + 1;
    var e := m + |val|;
    assert once[m..e] == val;
    assert once[e..] == content[j..];
    LineEndIs(once, m, e);
  }

  /** Writing a key whose first `key=` the text has, then writing it again,
      rewrites the new line to itself. */
  lemma IdempotentPresent(content: string, key: string, val: string, i: nat)
    requires LiteralKey(key) && OneLine(val) && NoDollar(val)
    requires Find(content, key + "=") == Some(i)
    ensures SetEnv(SetEnv(content, key, val), key, val) == SetEnv(content, key, val)
  {
    var j := LineEnd(content, i + |key| + 1);
    SetEnvReplaces(content, key, val, i);
    var once := content[..i] + Line(key, val) + content[j..];
    FindAfterSplice(content, key, val, i, j);
    LineEndAfterSplice(content, key, val, i, j);
    SetEnvFixed(once, key, val, i);
  }

  /** Writing the same one-line, `$`-free value twice gives the same text as
      writing it once. */
  lemma SetEnvIdempotent(content: string, key: string, val: string)
    requires LiteralKey(key) && OneLine(val) && NoDollar(val)
    ensures SetEnv(SetEnv(content, key, val), key, val) == SetEnv(content, key, val)
  {
    if !Contains(content, key) {
      IdempotentAbsent(content, key, val);
    } else if Find(content, key + "=").Some? {
      IdempotentPresent(content, key, val, Find(content, key + "=").value);
    }
  }

  // ===========================================================================
  // The intended update: one `KEY=value` line per key
  // ===========================================================================

  /** The line assigns `key`: it starts with `key=`. */
  predicate Assigns(line: string, key: string) {
    |key| + 1 <= |line| && line[..|key| + 1] == key + "="
  }

  /** The last line that assigns `key`. */
  function LastAssign(lines: seq<string>, key: string): (r: Option<nat>)
    ensures r.Some? ==> r.value < |lines| && Assigns(lines[r.value], key)
    ensures r.Some? ==> forall m | r.value < m < |lines| :: !Assigns(lines[m], key)
    ensures r.None? <==> forall m | 0 <= m < |lines| :: !Assigns(lines[m], key)
  {
    if lines == [] then None
    else if Assigns(lines[|lines| - 1], key) then Some(|lines| - 1)
    else LastAssign(lines[..|lines| - 1], key)
  }

  /** The value a `.env` loader reads for `key`: each `key=` line assigns it
      in turn, so the last one wins. */
  function LineValue(lines: seq<string>, key: string): (r: Option<string>)
    ensures r.None? <==> forall m | 0 <= m < |lines| :: !Assigns(lines[m], key)
  {
    match LastAssign(lines, key)
    case None => None
    case Some(n) => Some(lines[n][|key| + 1..])
  }

  /** The last line that assigns `key` is determined by where lines assign it. */
  lemma {:induction false} LastAssignIs(lines: seq<string>, key: string, n: nat)
    requires n < |lines| && Assigns(lines[n], key)
    requires forall m | n < m < |lines| :: !Assigns(lines[m], key)
    ensures LastAssign(lines, key) == Some(n)
  {
    if n < |lines| - 1 {
      var init := lines[..|lines| - 1];
      assert init[n] == lines[n];
      assert forall m | n < m < |init| :: init[m] == lines[m];
      LastAssignIs(init, key, n);
    }
  }

  /** Two texts whose lines assign `key` at the same places agree on where
      the last assignment is. */
  lemma LastAssignSame(a: seq<string>, b: seq<string>, key: string)
    requires |a| == |b|
    requires forall m | 0 <= m < |a| :: Assigns(a[m], key) == Assigns(b[m], key)
    ensures LastAssign(a, key) == LastAssign(b, key)
  {
    match LastAssign(a, key)
    case None =>
    case Some(n) => LastAssignIs(b, key, n);
  }

  /** A last line that does not assign `key` leaves its last assignment. */
  lemma LastAssignAppend(a: seq<string>, x: string, key: string)
    requires !Assigns(x, key)
    ensures LastAssign(a + [x], key) == LastAssign(a, key)
  {
    assert (a + [x])[..|a|] == a;
  }

  /** `key=val` assigns `key` the value `val`. */
  lemma LineAssigns(key: string, val: string)
    ensures Assigns(Line(key, val), key)
    ensures Line(key, val)[|key| + 1..] == val
  {
    assert Line(key, val)[..|key| + 1] == key + "=";
  }

  /** No line assigns two different keys. */
  lemma AssignsOneKey(line: string, k1: string, k2: string)
    requires LiteralKey(k1) && LiteralKey(k2) && k1 != k2
    requires Assigns(line, k1)
    ensures !Assigns(line, k2)
  {
    var n := |k1|;
    assert line[n] == line[..n + 1][n] == '=';
    if |k2| > n {
      assert KeyChar(k2[n]) && (k2 + "=")[n] == k2[n];
      if |k2| + 1 <= |line| {
        assert line[..|k2| + 1][n] == line[n];
      }
    } else if |k2| < n {
      var m := |k2|;
      assert line[m] == line[..n + 1][m] == k1[m];
      assert KeyChar(k1[m]);
      assert line[..m + 1][m] == line[m];
    } else {
      assert (k1 + "=")[..n] == k1;
      assert (k2 + "=")[..n] == k2;
    }
  }

  /** The corrected update on lines: every line that assigns `key` becomes
      `key=val`; with no such line, `key=val` becomes the last line. */
  function SetLine(lines: seq<string>, key: string, val: string): (r: seq<string>)
    ensures LastAssign(lines, key).Some? ==>
      && |r| == |lines|
      && forall m | 0 <= m < |lines| :: r[m] == if Assigns(lines[m], key) then Line(key, val) else lines[m]
    ensures LastAssign(lines, key).None? ==> r == lines + [Line(key, val)]
  {
    if LastAssign(lines, key).Some? then
      seq(|lines|, m requires 0 <= m < |lines| => if Assigns(lines[m], key) then Line(key, val) else lines[m])
    else lines + [Line(key, val)]
  }

  /** After the update the key reads the new value. */
  lemma SetLineReads(lines: seq<string>, key: string, val: string)
    ensures LineValue(SetLine(lines, key, val), key) == Some(val)
  {
    LineAssigns(key, val);
    var r := SetLine(lines, key, val);
    match LastAssign(lines, key)
    case Some(n) => LastAssignSame(r, lines, key);
    case None => LastAssignIs(r, key, |lines|);
  }

  /** The update leaves the value of every other key as it was. */
  lemma SetLineKeeps(lines: seq<string>, k1: string, k2: string, val: string)
    requires LiteralKey(k1) && LiteralKey(k2) && k1 != k2
    ensures LineValue(SetLine(lines, k2, val), k1) == LineValue(lines, k1)
  {
    LineAssigns(k2, val);
    if Assigns(Line(k2, val), k1) {
      AssignsOneKey(Line(k2, val), k1, k2);
    }
    var r := SetLine(lines, k2, val);
    if LastAssign(lines, k2).Some? {
      forall m | 0 <= m < |lines| ensures Assigns(r[m], k1) == Assigns(lines[m], k1) {
        if Assigns(lines[m], k2) && Assigns(lines[m], k1) {
          AssignsOneKey(lines[m], k1, k2);
        }
      }
      LastAssignSame(r, lines, k1);
      match LastAssign(lines, k1)
      case None =>
      case Some(n) =>
        if Assigns(lines[n], k2) {
          AssignsOneKey(lines[n], k1, k2);
        }
    } else {
      LastAssignAppend(lines, Line(k2, val), k1);
    }
  }

  /** `key=val` has no line break when `val` has none. */
  lemma LineNoBreak(key: string, val: string)
    requires LiteralKey(key) && '\n' !in val
    ensures '\n' !in Line(key, val)
  {
    var line := Line(key, val);
    forall k | 0 <= k < |line| ensures line[k] != '\n' {
      if k < |key| {
        assert line[k] == key[k] && KeyChar(key[k]);
      } else if k > |key| {
        assert line[k] == val[k - |key| - 1];
      }
    }
  }

  /** No line of a split text holds a line break. */
  lemma SplitNoBreak(content: string)
    ensures forall k | 0 <= k < |Split(content, "\n")| :: '\n' !in Split(content, "\n")[k]
  {
    var lines := Split(content, "\n");
    SplitPiecesFree(content, "\n");
    forall k | 0 <= k < |lines| ensures '\n' !in lines[k] {
      forall q | 0 <= q < |lines[k]| ensures lines[k][q] != '\n' {
        assert !OccursAt(lines[k], "\n", q);
      }
    }
  }

  /** The value `key` has in a `.env` text, read line by line. */
  function EnvValue(content: string, key: string): Option<string> {
    LineValue(Split(content, "\n"), key)
  }

  /** The update `setEnv` is meant to make: replace the line that assigns
      `key`, or append one. */
  function SetEnvLine(content: string, key: string, val: string): string {
    Join(SetLine(Split(content, "\n"), key, val), "\n")
  }

  /** Splitting the updated text gives back the updated lines. */
  lemma SetEnvLineLines(content: string, key: string, val: string)
    requires LiteralKey(key) && '\n' !in val
    ensures Split(SetEnvLine(content, key, val), "\n") == SetLine(Split(content, "\n"), key, val)
  {
    var lines := Split(content, "\n");
    var r := SetLine(lines, key, val);
    SplitNoBreak(content);
    LineNoBreak(key, val);
    forall k | 0 <= k < |r| ensures '\n' !in r[k] {
      if k < |lines| && r[k] != Line(key, val) {
        assert r[k] == lines[k];
      }
    }
    SplitOfJoin(r, '\n');
  }

  /** After the corrected update the key reads `val`. */
  lemma SetEnvLineReads(content: string, key: string, val: string)
    requires LiteralKey(key) && '\n' !in val
    ensures EnvValue(SetEnvLine(content, key, val), key) == Some(val)
  {
    SetEnvLineLines(content, key, val);
    SetLineReads(Split(content, "\n"), key, val);
  }

  /** The corrected update leaves every other key's value as it was. */
  lemma SetEnvLineKeeps(content: string, k1: string, k2: string, val: string)
    requires LiteralKey(k1) && LiteralKey(k2) && k1 != k2 && '\n' !in val
    ensures EnvValue(SetEnvLine(content, k2, val), k1) == EnvValue(content, k1)
  {
    SetEnvLineLines(content, k2, val);
    SetLineKeeps(Split(content, "\n"), k1, k2, val);
  }

  /** Where the text mentions no key, the update as written and the
      corrected update agree: both append `key=val` on a new line. */
  lemma SetEnvAgreesWhenAbsent(content: string, key: string, val: string)
    requires LiteralKey(key) && !Contains(content, key)
    ensures SetEnv(content, key, val) == SetEnvLine(content, key, val)
    ensures SetEnvLine(content, key, val) == content + "\n" + Line(key, val)
  {
    var lines := Split(content, "\n");
    forall m | 0 <= m < |lines| ensures !Assigns(lines[m], key) {
      if Assigns(lines[m], key) {
        assert OccursAt(lines[m], key, 0) by {
          forall j | 0 <= j < |key| ensures lines[m][0 + j] == key[j] {
            assert lines[m][j] == lines[m][..|key| + 1][j] == (key + "=")[j];
          }
        }
        OccursInPiece(content, "\n", m, key, 0);
      }
    }
    assert LastAssign(lines, key).None?;
    JoinAppend(lines, "\n", Line(key, val));
    SplitJoin(content, "\n");
  }

  // ===========================================================================
  // Two texts on which the update as written misses
  // ===========================================================================

  /** No `=` anywhere means no `key=` anywhere. */
  lemma NoEqualsNoAssignment(content: string, key: string)
    requires forall j | 0 <= j < |content| :: content[j] != '='
    ensures !Contains(content, key + "=")
    ensures EnvValue(content, key) == None
  {
    var p := key + "=";
    forall j | 0 <= j ensures !OccursAt(content, p, j) {
      if j + |p| <= |content| {
        assert content[j + |key|] != p[|key|];
      }
    }
    forall j | 0 <= j ensures !OccursAt(content, "=", j) {
      if j < |content| {
        assert content[j + 0] != "="[0];
      }
    }
    NotContains(content, "=");
    var lines := Split(content, "\n");
    forall m | 0 <= m < |lines| ensures !Assigns(lines[m], key) {
      if Assigns(lines[m], key) {
        assert OccursAt(lines[m], "=", |key|) by {
          assert lines[m][|key| + 0] == lines[m][..|key| + 1][|key|] == "="[0];
        }
        OccursInPiece(content, "\n", m, "=", |key|);
      }
    }
    assert LastAssign(lines, key).None?;
  }

  /** A `.env` that mentions a key only in a comment never receives its
      value: `includes` finds the key, the pattern `key=` matches nothing,
      and the text comes back unchanged. The corrected update appends the
      line. */
  lemma CommentedKeyNotWritten(key: string, val: string)
    requires LiteralKey(key) && '\n' !in val
    ensures var content := "# " + key + "\n";
      && SetEnv(content, key, val) == content
      && EnvValue(SetEnv(content, key, val), key) == None
      && EnvValue(SetEnvLine(content, key, val), key) == Some(val)
  {
    var content := "# " + key + "\n";
    forall j | 0 <= j < |content| ensures content[j] != '=' {
      if 2 <= j < 2 + |key| {
        assert content[j] == key[j - 2] && KeyChar(key[j - 2]);
      }
    }
    NoEqualsNoAssignment(content, key);
    assert OccursAt(content, key, 2) by {
      forall j | 0 <= j < |key| ensures content[2 + j] == key[j] {
      }
    }
    OccursContains(content, key, 2);
    SetEnvLineReads(content, key, val);
  }

  /** A `.env` that assigns a key twice keeps the stale value: the update
      as written rewrites only the first `key=` line, while the loader
      reads the last one. The corrected update rewrites both lines. */
  lemma DuplicateKeyStale(key: string, old1: string, old2: string, val: string)
    requires LiteralKey(key) && OneLine(old1) && OneLine(old2) && OneLine(val) && NoDollar(val)
    ensures var content := Line(key, old1) + "\n" + Line(key, old2);
      && EnvValue(content, key) == Some(old2)
      && EnvValue(SetEnv(content, key, val), key) == Some(old2)
      && EnvValue(SetEnvLine(content, key, val), key) == Some(val)
  {
    var content := Line(key, old1) + "\n" + Line(key, old2);
    FirstLineRewritten(key, old1, Line(key, old2), val);
    TwoLinesRead(key, old1, old2);
    TwoLinesRead(key, val, old2);
    OneLineNoBreak(val);
    SetEnvLineReads(content, key, val);
  }

  /** The update as written rewrites the first line when it assigns the key. */
  lemma FirstLineRewritten(key: string, was: string, rest: string, val: string)
    requires LiteralKey(key) && OneLine(was) && NoDollar(val)
    ensures SetEnv(Line(key, was) + "\n" + rest, key, val) == Line(key, val) + "\n" + rest
  {
    var content := Line(key, was) + "\n" + rest;
    var e := |key| + 1 + |was|;
    FirstLineShape(key, was, rest);
    LineEndBeforeBreak(Line(key, was), rest, |key| + 1);
    SetEnvReplaces(content, key, val, 0);
    assert content[..0] == [];
    assert [] + Line(key, val) == Line(key, val);
  }

  /** In a text whose first line assigns the key, the first `key=` is at the
      start and its `.*` run is the first line's value. */
  lemma FirstLineShape(key: string, was: string, rest: string)
    requires OneLine(was)
    ensures var content := Line(key, was) + "\n" + rest;
      && Find(content, key + "=") == Some(0)
      && Line(key, was)[|key| + 1..] == was
      && content[|key| + 1 + |was|..] == "\n" + rest
  {
    var line := Line(key, was);
    var content := line + "\n" + rest;
    var m := |key| + 1;
    var e := m + |was|;
    assert |line| == e && content[..e] == line;
    assert line[..m] == key + "=" && line[m..] == was;
    assert OccursAt(content, key + "=", 0) by {
      forall k | 0 <= k < m ensures content[k] == (key + "=")[k] {
        assert content[k] == line[k] == line[..m][k];
      }
    }
    FindIs(content, key + "=", 0);
    assert content[e..] == "\n" + rest;
  }

  /** The `.*` run that starts inside a line stops at the line break after it. */
  lemma LineEndBeforeBreak(line: string, rest: string, m: nat)
    requires m <= |line| && OneLine(line[m..])
    ensures LineEnd(line + "\n" + rest, m) == |line|
  {
    var content := line + "\n" + rest;
    assert content[m..|line|] == line[m..];
    assert content[|line|] == '\n';
    LineEndIs(content, m, |line|);
  }

  /** Two `key=` lines read as the second value. */
  lemma TwoLinesRead(key: string, a: string, b: string)
    requires LiteralKey(key) && OneLine(a) && OneLine(b)
    ensures EnvValue(Line(key, a) + "\n" + Line(key, b), key) == Some(b)
  {
    var lines := [Line(key, a), Line(key, b)];
    KeyLineOneLine(key, a);
    KeyLineOneLine(key, b);
    OneLineNoBreak(Line(key, a));
    OneLineNoBreak(Line(key, b));
    assert Join(lines, "\n") == Line(key, a) + "\n" + Line(key, b) by {
      assert lines[1..] == [Line(key, b)];
    }
    SplitOfJoin(lines, '\n');
    LineAssigns(key, b);
    LastAssignIs(lines, key, 1);
  }

  /** No character of a key is `=`. */
  lemma KeyHasNoEquals(key: string)
    requires LiteralKey(key)
    ensures forall j | 0 <= j < |key| :: key[j] != '='
  {
    forall j | 0 <= j < |key| ensures key[j] != '=' {
      assert KeyChar(key[j]);
    }
  }

  /** The update as written at a key that ends a longer key: the first
      `key=` is the one inside the longer key's line. */
  lemma SetEnvInsideLongerKey(prefix: string, key: string, before: string, val: string)
    requires LiteralKey(prefix) && LiteralKey(key)
    requires OneLine(before) && NoDollar(val)
    ensures SetEnv(prefix + key + "=" + before, key, val) == prefix + key + "=" + val
  {
    var content := prefix + key + "=" + before;
    var i := |prefix|;
    FirstKeyInsideLongerKey(prefix, key, before);
    LastLineShape(prefix, key, before, val);
    SetEnvReplaces(content, key, val, i);
  }

  /** The `.*` run after `prefix + key + "="` is the rest of the text, and
      replacing from the prefix onwards leaves the prefix. */
  lemma LastLineShape(prefix: string, key: string, before: string, val: string)
    requires OneLine(before)
    ensures var content := prefix + key + "=" + before;
      && LineEnd(content, |prefix| + |key| + 1) == |content|
      && content[..|prefix|] + Line(key, val) + content[|content|..] == prefix + key + "=" + val
  {
    var content := prefix + key + "=" + before;
    var i := |prefix|;
    assert content[i + |key| + 1..] == before;
    LineEndIs(content, i + |key| + 1, |content|);
    assert content[..i] == prefix;
    assert content[|content|..] == [];
  }

  /** In `prefix + key + "=" + before`, the first `key=` starts after the prefix. */
  lemma FirstKeyInsideLongerKey(prefix: string, key: string, before: string)
    requires LiteralKey(prefix) && LiteralKey(key)
    ensures Find(prefix + key + "=" + before, key + "=") == Some(|prefix|)
  {
    var long := prefix + key;
    var content := long + "=" + before;
    var p := key + "=";
    var i := |prefix|;
    assert OccursAt(content, p, i) by {
      forall j | 0 <= j < |p| ensures content[i + j] == p[j] {
      }
    }
    forall q | 0 <= q < i ensures !OccursAt(content, p, q) {
      assert content[q + |key|] == long[q + |key|];
      if q + |key| < |prefix| {
        assert long[q + |key|] == prefix[q + |key|] && KeyChar(prefix[q + |key|]);
      } else {
        assert long[q + |key|] == key[q + |key| - |prefix|] && KeyChar(key[q + |key| - |prefix|]);
      }
      assert content[q + |key|] != p[|key|];
    }
    FindIs(content, p, i);
  }

  /** The value a key has in a text of one line. */
  lemma OneLineValue(s: string, key: string)
    requires OneLine(s)
    ensures EnvValue(s, key) == if Assigns(s, key) then Some(s[|key| + 1..]) else None
  {
    OneLineSplit(s);
    if Assigns(s, key) {
      LastAssignIs([s], key, 0);
    }
  }

  /** `prefix + key` is itself a literal key, longer than `key`. */
  lemma LongerKey(prefix: string, key: string)
    requires LiteralKey(prefix) && LiteralKey(key)
    ensures LiteralKey(prefix + key) && prefix + key != key
  {
    var long := prefix + key;
    forall j | 0 <= j < |long| ensures KeyChar(long[j]) {
      if j >= |prefix| {
        assert long[j] == key[j - |prefix|];
      }
    }
    assert |long| != |key|;
  }

  /** A key that ends another, longer key: the unanchored pattern `key=`
      matches inside the longer key's line, so the update as written
      overwrites that other key's value and `key` itself still has none.
      The corrected update writes `key` and keeps the other value. */
  lemma LongerKeyOverwritten(prefix: string, key: string, before: string, val: string)
    requires LiteralKey(prefix) && LiteralKey(key)
    requires OneLine(before) && OneLine(val) && NoDollar(val)
    ensures var content := prefix + key + "=" + before;
      && EnvValue(content, prefix + key) == Some(before)
      && EnvValue(SetEnv(content, key, val), prefix + key) == Some(val)
      && EnvValue(SetEnv(content, key, val), key) == None
      && EnvValue(SetEnvLine(content, key, val), key) == Some(val)
      && EnvValue(SetEnvLine(content, key, val), prefix + key) == Some(before)
  {
    var long := prefix + key;
    var content := long + "=" + before;
    var written := long + "=" + val;
    LongerKey(prefix, key);
    SetEnvInsideLongerKey(prefix, key, before, val);
    KeyLineOneLine(long, before);
    KeyLineOneLine(long, val);
    LineAssigns(long, before);
    LineAssigns(long, val);
    OneLineValue(content, long);
    OneLineValue(written, long);
    OneLineValue(written, key);
    LongLineNotKey(prefix, key, val);
    OneLineNoBreak(val);
    SetEnvLineReads(content, key, val);
    SetEnvLineKeeps(content, long, key, val);
  }

  /** An assignment of a literal key to a one-line value is one line. */
  lemma KeyLineOneLine(key: string, val: string)
    requires LiteralKey(key) && OneLine(val)
    ensures OneLine(key + "=" + val)
  {
    var line := key + "=" + val;
    forall j | 0 <= j < |line| ensures !IsLineTerminator(line[j]) {
      if j < |key| {
        assert KeyChar(key[j]);
      } else if j > |key| {
        assert line[j] == val[j - |key| - 1];
      }
    }
  }

  /** The line of `prefix + key` does not assign `key`. */
  lemma LongLineNotKey(prefix: string, key: string, val: string)
    requires LiteralKey(prefix) && LiteralKey(key)
    ensures !Assigns(prefix + key + "=" + val, key)
  {
    var long := prefix + key;
    var written := long + "=" + val;
    assert written[|key|] == long[|key|] && KeyChar(long[|key|]);
    assert written[..|key| + 1][|key|] == written[|key|];
    assert (key + "=")[|key|] == '=';
  }

  lemma OneLineNoBreak(s: string)
    requires OneLine(s)
    ensures '\n' !in s
  {
    forall j | 0 <= j < |s| ensures s[j] != '\n' {
      assert !IsLineTerminator(s[j]);
    }
  }

  /** A text without line breaks is a single line. */
  lemma OneLineSplit(s: string)
    requires OneLine(s)
    ensures Split(s, "\n") == [s]
  {
    OneLineNoBreak(s);
    SplitOfJoin([s], '\n');
  }

  // ===========================================================================
  // The four database ids
  // ===========================================================================

  const IdeasKey: string := "NOTION_IDEAS_DB_ID"
  const CharactersKey: string := "NOTION_CHARACTERS_DB_ID"
  const StoriesKey: string := "NOTION_STORIES_DB_ID"
  const RandomKey: string := "NOTION_RANDOM_DB_ID"

  /** The four keys are literal, with their lengths. */
  lemma KeysLiteral()
    ensures LiteralKey(IdeasKey) && LiteralKey(CharactersKey)
    ensures LiteralKey(StoriesKey) && LiteralKey(RandomKey)
    ensures |IdeasKey| == 18 && |CharactersKey| == 23 && |StoriesKey| == 20 && |RandomKey| == 19
  {
    IsLiteralKey(IdeasKey);
    IsLiteralKey(CharactersKey);
    IsLiteralKey(StoriesKey);
    IsLiteralKey(RandomKey);
  }

  /** A key of capitals and underscores is literal. */
  lemma IsLiteralKey(key: string)
    requires key != [] && forall k | 0 <= k < |key| :: 'A' <= key[k] <= 'Z' || key[k] == '_'
    ensures LiteralKey(key)
  {
  }

  /** The script's four updates in order, as written. */
  function WriteIds(env: string, ideas: string, characters: string, stories: string, random: string): (r: string)
    // on a `.env` that mentions none of the keys, with ids that mention no
    // key written after them, the four lines are appended in order
    ensures Fresh(env, ideas, characters, stories) ==>
      r == env + "\n" + Line(IdeasKey, ideas) + "\n" + Line(CharactersKey, characters)
        + "\n" + Line(StoriesKey, stories) + "\n" + Line(RandomKey, random)
    // the last key written is always mentioned afterwards
    ensures Contains(r, RandomKey)
  {
    KeysLiteral();
    var r := SetEnv(SetEnv(SetEnv(SetEnv(env, IdeasKey, ideas), CharactersKey, characters), StoriesKey, stories), RandomKey, random);
    if Fresh(env, ideas, characters, stories) then
      AppendsFour(env, ideas, characters, stories, random);
      r
    else
      r
  }

  /** A `.env` that mentions none of the database keys, and ids none of
      which mentions a key written after it. */
  predicate Fresh(env: string, ideas: string, characters: string, stories: string) {
    && !Contains(env, IdeasKey) && !Contains(env, CharactersKey)
    && !Contains(env, StoriesKey) && !Contains(env, RandomKey)
    && !Contains(ideas, CharactersKey) && !Contains(ideas, StoriesKey) && !Contains(ideas, RandomKey)
    && !Contains(characters, StoriesKey) && !Contains(characters, RandomKey)
    && !Contains(stories, RandomKey)
  }

  /** The same four updates, made with the corrected update. */
  function WriteIdsLine(env: string, ideas: string, characters: string, stories: string, random: string): string {
    SetEnvLine(SetEnvLine(SetEnvLine(SetEnvLine(env, IdeasKey, ideas), CharactersKey, characters), StoriesKey, stories), RandomKey, random)
  }

  /** After the corrected updates, each database key reads its new id,
      whatever the `.env` held before. */
  lemma WriteIdsLineReads(env: string, ideas: string, characters: string, stories: string, random: string)
    requires '\n' !in ideas && '\n' !in characters && '\n' !in stories && '\n' !in random
    ensures var r := WriteIdsLine(env, ideas, characters, stories, random);
      && EnvValue(r, IdeasKey) == Some(ideas)
      && EnvValue(r, CharactersKey) == Some(characters)
      && EnvValue(r, StoriesKey) == Some(stories)
      && EnvValue(r, RandomKey) == Some(random)
  {
    KeysLiteral();
    var e1 := SetEnvLine(env, IdeasKey, ideas);
    var e2 := SetEnvLine(e1, CharactersKey, characters);
    var e3 := SetEnvLine(e2, StoriesKey, stories);
    SetEnvLineReads(env, IdeasKey, ideas);
    SetEnvLineKeeps(e1, IdeasKey, CharactersKey, characters);
    SetEnvLineKeeps(e2, IdeasKey, StoriesKey, stories);
    SetEnvLineKeeps(e3, IdeasKey, RandomKey, random);
    SetEnvLineReads(e1, CharactersKey, characters);
    SetEnvLineKeeps(e2, CharactersKey, StoriesKey, stories);
    SetEnvLineKeeps(e3, CharactersKey, RandomKey, random);
    SetEnvLineReads(e2, StoriesKey, stories);
    SetEnvLineKeeps(e3, StoriesKey, RandomKey, random);
    SetEnvLineReads(e3, RandomKey, random);
  }

  /** The corrected updates leave every other key's value as it was. */
  lemma WriteIdsLineKeeps(env: string, ideas: string, characters: string, stories: string, random: string, key: string)
    requires '\n' !in ideas && '\n' !in characters && '\n' !in stories && '\n' !in random
    requires LiteralKey(key)
    requires key != IdeasKey && key != CharactersKey && key != StoriesKey && key != RandomKey
    ensures EnvValue(WriteIdsLine(env, ideas, characters, stories, random), key) == EnvValue(env, key)
  {
    KeysLiteral();
    var e1 := SetEnvLine(env, IdeasKey, ideas);
    var e2 := SetEnvLine(e1, CharactersKey, characters);
    var e3 := SetEnvLine(e2, StoriesKey, stories);
    SetEnvLineKeeps(env, key, IdeasKey, ideas);
    SetEnvLineKeeps(e1, key, CharactersKey, characters);
    SetEnvLineKeeps(e2, key, StoriesKey, stories);
    SetEnvLineKeeps(e3, key, RandomKey, random);
  }

  /** No database key occurs inside a key written before it. */
  lemma KeysApart()
    ensures !Contains(IdeasKey, CharactersKey) && !Contains(IdeasKey, StoriesKey)
    ensures !Contains(IdeasKey, RandomKey) && !Contains(CharactersKey, StoriesKey)
    ensures !Contains(CharactersKey, RandomKey) && !Contains(StoriesKey, RandomKey)
  {
    KeysLiteral();
    NotContains(IdeasKey, CharactersKey);
    NotContains(IdeasKey, StoriesKey);
    NotContains(IdeasKey, RandomKey);
    StoriesNotInCharacters();
    RandomNotInCharacters();
    RandomNotInStories();
  }

  /** The key `p` is not found at `j` in the key `s`: they differ at `k`. */
  lemma KeyMismatch(s: string, p: string, j: nat, k: nat, c: char, d: char)
    requires |p| <= |s| && k < |p| && j + k < |s|
    requires s[j + k] == c && p[k] == d && c != d
    ensures !OccursAt(s, p, j)
  {
  }

  lemma StoriesNotInCharacters()
    ensures !Contains(CharactersKey, StoriesKey)
  {
    forall j | 0 <= j <= |CharactersKey| - |StoriesKey| ensures !OccursAt(CharactersKey, StoriesKey, j) {
      if j == 0 {
        KeyMismatch(CharactersKey, StoriesKey, 0, 7, 'C', 'S');
      } else {
        KeyMismatch(CharactersKey, StoriesKey, j, 0, CharactersKey[j], 'N');
      }
    }
    NotContains(CharactersKey, StoriesKey);
  }

  lemma RandomNotInCharacters()
    ensures !Contains(CharactersKey, RandomKey)
  {
    forall j | 0 <= j <= |CharactersKey| - |RandomKey| ensures !OccursAt(CharactersKey, RandomKey, j) {
      if j == 0 {
        KeyMismatch(CharactersKey, RandomKey, 0, 7, 'C', 'R');
      } else {
        KeyMismatch(CharactersKey, RandomKey, j, 0, CharactersKey[j], 'N');
      }
    }
    NotContains(CharactersKey, RandomKey);
  }

  lemma RandomNotInStories()
    ensures !Contains(StoriesKey, RandomKey)
  {
    forall j | 0 <= j <= |StoriesKey| - |RandomKey| ensures !OccursAt(StoriesKey, RandomKey, j) {
      if j == 0 {
        KeyMismatch(StoriesKey, RandomKey, 0, 7, 'S', 'R');
      } else {
        KeyMismatch(StoriesKey, RandomKey, j, 0, StoriesKey[j], 'N');
      }
    }
    NotContains(StoriesKey, RandomKey);
  }

  /** Appending `k1=val` on a new line does not make the text mention `k2`
      when neither the text, `k1` nor `val` did. */
  lemma AppendKeeps(content: string, k1: string, val: string, k2: string)
    requires LiteralKey(k1) && LiteralKey(k2)
    requires !Contains(content, k2) && !Contains(k1, k2) && !Contains(val, k2)
    ensures !Contains(content + "\n" + Line(k1, val), k2)
  {
    KeyHasNoEquals(k2);
    forall j | 0 <= j < |k2| ensures k2[j] != '\n' {
      assert KeyChar(k2[j]);
    }
    AbsentAcross(k1, '=', val, k2);
    assert Line(k1, val) == k1 + ['='] + val;
    AbsentAcross(content, '\n', Line(k1, val), k2);
    assert content + "\n" + Line(k1, val) == content + ['\n'] + Line(k1, val);
  }

  /** On a fresh `.env` each of the four updates as written appends its
      line, since no earlier line mentions the key. */
  lemma AppendsFour(env: string, ideas: string, characters: string, stories: string, random: string)
    requires LiteralKey(IdeasKey) && LiteralKey(CharactersKey) && LiteralKey(StoriesKey) && LiteralKey(RandomKey)
    requires Fresh(env, ideas, characters, stories)
    ensures SetEnv(SetEnv(SetEnv(SetEnv(env, IdeasKey, ideas), CharactersKey, characters), StoriesKey, stories), RandomKey, random)
      == env + "\n" + Line(IdeasKey, ideas) + "\n" + Line(CharactersKey, characters)
        + "\n" + Line(StoriesKey, stories) + "\n" + Line(RandomKey, random)
  {
    KeysLiteral();
    KeysApart();
    var e1 := env + "\n" + Line(IdeasKey, ideas);
    AppendKeeps(env, IdeasKey, ideas, CharactersKey);
    AppendKeeps(env, IdeasKey, ideas, StoriesKey);
    AppendKeeps(env, IdeasKey, ideas, RandomKey);
    var e2 := e1 + "\n" + Line(CharactersKey, characters);
    AppendKeeps(e1, CharactersKey, characters, StoriesKey);
    AppendKeeps(e1, CharactersKey, characters, RandomKey);
    AppendKeeps(e2, StoriesKey, stories, RandomKey);
  }

  /** On a fresh `.env` the four updates as written give the same text as
      the corrected updates, so every key reads its new id. */
  lemma WriteIdsFresh(env: string, ideas: string, characters: string, stories: string, random: string)
    requires Fresh(env, ideas, characters, stories)
    ensures WriteIds(env, ideas, characters, stories, random)
      == WriteIdsLine(env, ideas, characters, stories, random)
  {
    KeysLiteral();
    KeysApart();
    var e1 := env + "\n" + Line(IdeasKey, ideas);
    SetEnvAgreesWhenAbsent(env, IdeasKey, ideas);
    AppendKeeps(env, IdeasKey, ideas, CharactersKey);
    AppendKeeps(env, IdeasKey, ideas, StoriesKey);
    AppendKeeps(env, IdeasKey, ideas, RandomKey);
    var e2 := e1 + "\n" + Line(CharactersKey, characters);
    SetEnvAgreesWhenAbsent(e1, CharactersKey, characters);
    AppendKeeps(e1, CharactersKey, characters, StoriesKey);
    AppendKeeps(e1, CharactersKey, characters, RandomKey);
    var e3 := e2 + "\n" + Line(StoriesKey, stories);
    SetEnvAgreesWhenAbsent(e2, StoriesKey, stories);
    AppendKeeps(e2, StoriesKey, stories, RandomKey);
    SetEnvAgreesWhenAbsent(e3, RandomKey, random);
  }
}
