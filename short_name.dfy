/**
 * The short name shown for a component path:
 * `path.split('<')[0].split('::').at(-1)`, the last `::`-segment of the text
 * before the first `<`. `split` scans left to right and never lets two
 * matches overlap, so "a:::b" splits into "a" and ":b".
 */
module ShortName {

  /** `s.split('<')[0]`: the text before the first '<' (all of `s` when there is none). */
  function BeforeGeneric(s: string): (r: string)
    ensures r <= s && '<' !in r
    ensures |r| < |s| ==> s[|r|] == '<'
  {
    if s == [] || s[0] == '<' then [] else [s[0]] + BeforeGeneric(s[1..])
  }

  predicate StartsWithSep(s: string) {
    |s| >= 2 && s[0] == ':' && s[1] == ':'
  }

  /** `s` contains the separator "::" somewhere. */
  predicate HasSep(s: string) {
    exists i :: 0 <= i < |s| - 1 && s[i] == ':' && s[i + 1] == ':'
  }

  /** `s.split('::')` */
  function Split(s: string): (parts: seq<string>)
    ensures |parts| >= 1 && parts[0] <= s
    decreases |s|
  {
    if |s| < 2 then [s]
    else if StartsWithSep(s) then [""] + Split(s[2..])
    else
      var rest := Split(s[1..]);
      [[s[0]] + rest[0]] + rest[1..]
  }

  /** `parts.join('::')` */
  function Join(parts: seq<string>): string
    requires |parts| >= 1
  {
    if |parts| == 1 then parts[0] else parts[0] + "::" + Join(parts[1..])
  }

  /**
   * `path.split('<')[0].split('::').at(-1)`: a suffix of the text before the
   * first '<' that holds no '<' and no "::". It is all of that text, or it
   * follows a "::" there.
   */
  function ShortName(path: string): (r: string)
    ensures '<' !in r && !HasSep(r)
    ensures var b := BeforeGeneric(path);
      && |r| <= |b| && b[|b| - |r|..] == r
      && (|r| < |b| ==> |r| + 2 <= |b| && b[|b| - |r| - 2 .. |b| - |r|] == "::")
  {
    var b := BeforeGeneric(path);
    var parts := Split(b);
    SplitPartsHaveNoSep(b);
    JoinSplit(b);
    JoinLast(parts);
    parts[|parts| - 1]
  }

  /** Splitting loses nothing: joining the parts gives the text back. */
  lemma {:induction false} JoinSplit(s: string)
    ensures Join(Split(s)) == s
    decreases |s|
  {
    if |s| >= 2 {
      if StartsWithSep(s) {
        JoinSplit(s[2..]);
      } else {
        JoinSplit(s[1..]);
        var rest := Split(s[1..]);
        if |rest| > 1 {
          assert Join(rest) == rest[0] + "::" + Join(rest[1..]);
          assert ([[s[0]] + rest[0]] + rest[1..])[1..] == rest[1..];
        }
      }
    }
  }

  /** No part contains the separator. */
  lemma {:induction false} SplitPartsHaveNoSep(s: string)
    ensures forall i :: 0 <= i < |Split(s)| ==> !HasSep(Split(s)[i])
    decreases |s|
  {
    if |s| >= 2 {
      if StartsWithSep(s) {
        SplitPartsHaveNoSep(s[2..]);
        var parts := Split(s);
        assert forall i :: 1 <= i < |parts| ==> parts[i] == Split(s[2..])[i - 1];
      } else {
        SplitPartsHaveNoSep(s[1..]);
        var rest := Split(s[1..]);
        var first := [s[0]] + rest[0];
        assert rest[0] <= s[1..];
        var parts := Split(s);
        assert forall i :: 1 <= i < |parts| ==> parts[i] == rest[i];
      }
    }
  }

  /** Text without the separator is a single part. */
  lemma {:induction false} SplitWithoutSep(n: string)
    requires !HasSep(n)
    ensures Split(n) == [n]
    decreases |n|
  {
    if |n| >= 2 {
      assert !(n[0] == ':' && n[1] == ':');
      SplitWithoutSep(n[1..]);
      assert [n[0]] + n[1..] == n;
    }
  }

  /**
   * Appending "::" and a separator-free name adds exactly one part, when the
   * prefix does not end in ':' (which would make the scan match one place earlier).
   */
  lemma {:induction false} SplitQualified(q: string, n: string)
    requires q == [] || q[|q| - 1] != ':'
    requires !HasSep(n)
    ensures Split(q + "::" + n) == Split(q) + [n]
    decreases |q|
  {
    var s := q + "::" + n;
    if q == [] {
      assert s[2..] == n;
      SplitWithoutSep(n);
    } else if |q| == 1 {
      assert s[1..] == [] + "::" + n;
      SplitQualified([], n);
      assert [s[0]] + "" == q;
    } else if StartsWithSep(q) {
      assert StartsWithSep(s);
      assert s[2..] == q[2..] + "::" + n;
      SplitQualified(q[2..], n);
      assert Split(s) == [""] + Split(q[2..] + "::" + n);
    } else {
      assert s[1..] == q[1..] + "::" + n;
      SplitQualified(q[1..], n);
      SplitStep(q, s, n);
    }
  }

  /** One step of the scan: a first character that starts no separator joins the first part. */
  lemma SplitStep(q: string, s: string, n: string)
    requires |q| >= 2 && !StartsWithSep(q) && s == q + "::" + n
    requires Split(s[1..]) == Split(q[1..]) + [n]
    ensures Split(s) == Split(q) + [n]
  {
    assert !StartsWithSep(s);
    var rest := Split(q[1..]);
    assert (rest + [n])[0] == rest[0];
    assert (rest + [n])[1..] == rest[1..] + [n];
  }

  /** The joined text ends with the last part, after a separator when there are several parts. */
  lemma {:induction false} JoinLast(parts: seq<string>)
    requires |parts| >= 1
    ensures var j, r := Join(parts), parts[|parts| - 1];
      && |r| <= |j| && j[|j| - |r|..] == r
      && (|parts| > 1 ==> |r| + 2 <= |j| && j[|j| - |r| - 2 .. |j| - |r|] == "::")
  {
    if |parts| > 1 {
      JoinLast(parts[1..]);
    }
  }

  /**
   * A qualified path `q::n<...>` has the short name `n`, whatever the module
   * path `q` is (as long as it does not end in ':').
   */
  lemma ShortNameOfQualified(q: string, n: string, generic: string)
    requires '<' !in q && '<' !in n && !HasSep(n)
    requires q == [] || q[|q| - 1] != ':'
    requires generic == [] || generic[0] == '<'
    ensures ShortName(q + "::" + n + generic) == n
  {
    var path := q + "::" + n + generic;
    BeforeGenericOfConcat(q + "::" + n, generic);
    SplitQualified(q, n);
  }

  lemma {:induction false} BeforeGenericOfConcat(a: string, g: string)
    requires '<' !in a
    requires g == [] || g[0] == '<'
    ensures BeforeGeneric(a + g) == a
    decreases |a|
  {
    if a != [] {
      assert (a + g)[1..] == a[1..] + g;
      BeforeGenericOfConcat(a[1..], g);
    }
  }

  lemma ShortNameOfGenericPath()
    ensures ShortName("game::physics::Velocity<f32>") == "Velocity"
  {
    assert "game::physics::Velocity<f32>" == "game::physics" + "::" + "Velocity" + "<f32>";
    ShortNameOfQualified("game::physics", "Velocity", "<f32>");
  }

  /** A name with no '<' and no "::" is its own short name. */
  lemma ShortNameOfPlainName(n: string)
    requires '<' !in n && !HasSep(n)
    ensures ShortName(n) == n
  {
    assert n + [] == n;
    BeforeGenericOfConcat(n, []);
    SplitWithoutSep(n);
  }
}
