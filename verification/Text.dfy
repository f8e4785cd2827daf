/** The few string operations of the original that the models share, on code points: Python's
    order on strings, `replace` of one character, `partition`, `strip`, `lower`, lines ended by
    a line feed, and the last segment of a URI. */
module Text {

  /** Python's `<` on strings: the first differing code point decides, a prefix is below. */
  predicate Below(a: string, b: string) {
    b != [] && (a == [] || a[0] < b[0] || (a[0] == b[0] && Below(a[1..], b[1..])))
  }

  lemma {:induction false} BelowTotal(a: string, b: string)
    ensures a == b || Below(a, b) || Below(b, a)
  {
    if a != [] && b != [] && a[0] == b[0] {
      BelowTotal(a[1..], b[1..]);
      assert a[1..] == b[1..] ==> a == [a[0]] + a[1..] == b;
    }
  }

  lemma {:induction false} BelowAsymmetric(a: string, b: string)
    ensures !(Below(a, b) && Below(b, a))
  {
    if a != [] && b != [] {
      BelowAsymmetric(a[1..], b[1..]);
    }
  }

  lemma {:induction false} BelowTransitive(a: string, b: string, c: string)
    requires Below(a, b) && Below(b, c)
    ensures Below(a, c)
  {
    if a != [] && a[0] == b[0] == c[0] {
      BelowTransitive(a[1..], b[1..], c[1..]);
    }
  }

  /** The strings part at `i`, where the first is lower or has ended. */
  ghost predicate PartsAt(a: string, b: string, i: nat) {
    i <= |a| && i < |b| && a[..i] == b[..i] && (i == |a| || a[i] < b[i])
  }

  lemma {:induction false} BelowExactlyWhen(a: string, b: string)
    ensures Below(a, b) <==> exists i: nat :: PartsAt(a, b, i)
  {
    if a != [] && b != [] && a[0] == b[0] {
      BelowExactlyWhen(a[1..], b[1..]);
      if i: nat :| PartsAt(a[1..], b[1..], i) {
        assert a[..i + 1] == [a[0]] + a[1..][..i] == [b[0]] + b[1..][..i] == b[..i + 1];
        assert PartsAt(a, b, i + 1);
      }
      if i: nat :| PartsAt(a, b, i) {
        assert i > 0 && a[1..][..i - 1] == a[..i][1..] == b[..i][1..] == b[1..][..i - 1];
        assert PartsAt(a[1..], b[1..], i - 1);
      }
    } else {
      FirstDiffers(a, b);
    }
  }

  lemma FirstDiffers(a: string, b: string)
    requires a == [] || b == [] || a[0] != b[0]
    ensures Below(a, b) <==> PartsAt(a, b, 0)
    ensures forall i: nat :: PartsAt(a, b, i) ==> i == 0
  {
    forall i: nat | i > 0 ensures !PartsAt(a, b, i) {
      assert i <= |a| && i <= |b| ==> a[..i][0] == a[0] && b[..i][0] == b[0];
    }
  }

  /** `str.replace` of a single character. */
  function ReplaceChar(s: string, c: char, by_: string): string {
    if s == [] then "" else (if s[0] == c then by_ else [s[0]]) + ReplaceChar(s[1..], c, by_)
  }

  lemma {:induction false} ReplaceCharConcat(s: string, t: string, c: char, by_: string)
    ensures ReplaceChar(s + t, c, by_) == ReplaceChar(s, c, by_) + ReplaceChar(t, c, by_)
  {
    if s == [] {
      assert s + t == t;
    } else {
      assert (s + t)[1..] == s[1..] + t;
      ReplaceCharConcat(s[1..], t, c, by_);
    }
  }

  /** The text before the first `c`, and the text after it; all of it and "" without one. */
  function Partition(s: string, c: char): (r: (string, string))
    ensures c !in r.0
    ensures c in s ==> s == r.0 + [c] + r.1
    ensures c !in s ==> r == (s, "")
  {
    if s == [] then ("", "")
    else if s[0] == c then ("", s[1..])
    else
      var (before, after) := Partition(s[1..], c);
      assert s == [s[0]] + s[1..];
      ([s[0]] + before, after)
  }

  lemma {:induction false} PartitionAt(before: string, c: char, after: string)
    requires c !in before
    ensures Partition(before + [c] + after, c) == (before, after)
  {
    var s := before + [c] + after;
    if before == [] {
      assert s[1..] == after;
    } else {
      assert s[1..] == before[1..] + [c] + after;
      PartitionAt(before[1..], c, after);
      assert [s[0]] + before[1..] == before;
    }
  }

  /** The ASCII characters `str.isspace` holds of, which `str.strip` takes off. */
  predicate IsSpace(c: char) {
    '\t' <= c <= '\r' || '\U{1C}' <= c <= ' '
  }

  function StripLeft(s: string): (r: string)
    ensures r == [] || !IsSpace(r[0])
    ensures forall c <- r :: c in s
  {
    if s != [] && IsSpace(s[0]) then StripLeft(s[1..]) else s
  }

  function StripRight(s: string): (r: string)
    ensures r == [] || !IsSpace(r[|r| - 1])
    ensures r <= s
  {
    if s != [] && IsSpace(s[|s| - 1]) then StripRight(s[..|s| - 1]) else s
  }

  /** `str.strip`. */
  function Strip(s: string): (r: string)
    ensures r == [] || (!IsSpace(r[0]) && !IsSpace(r[|r| - 1]))
    ensures forall c <- r :: c in s
  {
    StripRight(StripLeft(s))
  }

  predicate AllSpace(s: string) {
    forall c <- s :: c in {'\t', '\n', '\U{b}', '\U{c}', '\r', '\U{1c}', '\U{1d}', '\U{1e}', '\U{1f}', ' '}
  }

  lemma {:induction false} StripLeftTakes(s: string) returns (taken: string)
    ensures s == taken + StripLeft(s) && AllSpace(taken)
  {
    taken := "";
    if s != [] && IsSpace(s[0]) {
      var rest := StripLeftTakes(s[1..]);
      taken := [s[0]] + rest;
    }
  }

  lemma {:induction false} StripRightTakes(s: string) returns (taken: string)
    ensures s == StripRight(s) + taken && AllSpace(taken)
  {
    taken := "";
    if s != [] && IsSpace(s[|s| - 1]) {
      var rest := StripRightTakes(s[..|s| - 1]);
      taken := rest + [s[|s| - 1]];
    }
  }

  /** Stripping takes off the white space at both ends and nothing else. */
  lemma StripTakesTheEnds(s: string) returns (left: string, right: string)
    ensures s == left + Strip(s) + right && AllSpace(left) && AllSpace(right)
    ensures Strip(s) != "" ==> !AllSpace(Strip(s)[..1]) && !AllSpace(Strip(s)[|Strip(s)| - 1..])
  {
    left := StripLeftTakes(s);
    right := StripRightTakes(StripLeft(s));
    var r := Strip(s);
    if r != "" {
      assert r[0] in r[..1] && r[|r| - 1] in r[|r| - 1..];
    }
  }

  predicate Stripped(s: string) {
    s == [] || (!IsSpace(s[0]) && !IsSpace(s[|s| - 1]))
  }

  lemma StrippedStays(s: string)
    requires Stripped(s)
    ensures Strip(s) == s
  {
  }

  /** These lines, each ended by a line feed. */
  function Terminated(lines: seq<string>): string {
    if lines == [] then "" else lines[0] + "\n" + Terminated(lines[1..])
  }

  function LowerChar(c: char): char {
    if 'A' <= c <= 'Z' then c - 'A' + 'a' else c
  }

  /** `str.lower`, on ASCII letters. */
  function Lower(s: string): (r: string)
    ensures |r| == |s|
    ensures forall i :: 0 <= i < |s| ==> r[i] == LowerChar(s[i])
  {
    seq(|s|, i requires 0 <= i < |s| => LowerChar(s[i]))
  }

  /** The capitals of ASCII, and only they, become their small letters. */
  lemma LowerLowers(s: string, i: nat)
    requires i < |s|
    ensures 'A' <= s[i] <= 'Z' ==> 'a' <= Lower(s)[i] <= 'z' && Lower(s)[i] - 'a' == s[i] - 'A'
    ensures s[i] < 'A' || 'Z' < s[i] ==> Lower(s)[i] == s[i]
  {
  }

  function StripSlashes(s: string): string {
    if s != "" && s[|s| - 1] == '/' then StripSlashes(s[..|s| - 1]) else s
  }

  function AfterLastSlash(s: string): string
    decreases |s|
  {
    if '/' !in s then s else AfterLastSlash(Partition(s, '/').1)
  }

  /** `_leaf`: the last segment of a URI. */
  function Leaf(value: string): string {
    AfterLastSlash(StripSlashes(value))
  }

  lemma {:induction false} NoSlashLeft(s: string)
    ensures '/' !in AfterLastSlash(s)
    decreases |s|
  {
    if '/' in s {
      NoSlashLeft(Partition(s, '/').1);
    }
  }

  lemma {:induction false} LastSegment(path: string, leaf: string)
    requires '/' !in leaf
    ensures AfterLastSlash(path + "/" + leaf) == leaf
    decreases |path|
  {
    var s := path + "/" + leaf;
    var (before, after) := Partition(path, '/');
    assert s[|path|] == '/';
    if '/' in path {
      assert s == before + ['/'] + (after + "/" + leaf);
      PartitionAt(before, '/', after + "/" + leaf);
      LastSegment(after, leaf);
    } else {
      assert s == path + ['/'] + leaf;
      PartitionAt(path, '/', leaf);
    }
  }

  lemma {:induction false} SlashesStrip(s: string, slashes: string)
    requires s != "" && s[|s| - 1] != '/' && forall c <- slashes :: c == '/'
    ensures StripSlashes(s + slashes) == s
  {
    if slashes == "" {
      assert s + slashes == s;
    } else {
      var all, fewer := s + slashes, slashes[..|slashes| - 1];
      assert slashes[|slashes| - 1] in slashes && forall c <- fewer :: c in slashes;
      assert all[..|all| - 1] == s + fewer;
      SlashesStrip(s, fewer);
    }
  }

  /** The leaf of a URI is its last segment whatever stands before it and however many
      slashes end it, and a bare name is its own leaf. */
  lemma LeafIsTheLastSegment(path: string, leaf: string, slashes: string)
    requires leaf != "" && '/' !in leaf && forall c <- slashes :: c == '/'
    ensures Leaf(path + "/" + leaf + slashes) == leaf && Leaf(leaf) == leaf
    ensures '/' !in Leaf(path)
  {
    var s := path + "/" + leaf;
    assert leaf[|leaf| - 1] in leaf && s[|s| - 1] == leaf[|leaf| - 1];
    SlashesStrip(s, slashes);
    LastSegment(path, leaf);
    NoSlashLeft(StripSlashes(path));
  }
}
