/** Path text, as the backup engine compares and rebuilds it.

    A canonical path (what realpath returns) is a list of components; `Text` is its spelling,
    each component preceded by a slash, so the root directory is spelled by the empty text.
    The C code works on the spelling. The lemmas say what that means for the components. */
module Paths {
  import opened Basics

  type Path = seq<string>

  predicate Canonical(p: Path) {
    forall i | 0 <= i < |p| :: p[i] != "" && '/' !in p[i]
  }

  function Text(p: Path): string {
    if p == [] then "" else "/" + p[0] + Text(p[1..])
  }

  /** has_prefix_path; path_is_prefix is the same test with its parameters swapped. */
  predicate HasPrefixPath(s: string, prefix: string) {
    prefix <= s && (|s| == |prefix| || s[|prefix|] == '/')
  }

  /** map_src_to_dst, with its failures: not below the source root, or too long a result. */
  function MapSrcToDst(srcReal: string, dstReal: string, srcPath: string): Option<string> {
    if !(srcReal <= srcPath) then None
    else if |srcPath| != |srcReal| && srcPath[|srcReal|] != '/' then None
    else
      var rest := srcPath[|srcReal|..];
      var suffix := if rest != "" && rest[0] == '/' then rest[1..] else rest;
      var mapped := if suffix == "" then dstReal else dstReal + "/" + suffix;
      if |mapped| >= PATH_MAX then None else Some(mapped)
  }

  /** The new text watch_update_prefix gives to a watched path; paths outside stay as they are. */
  function ReplacePrefix(path: string, oldPath: string, newPath: string): string {
    if !HasPrefixPath(path, oldPath) then path
    else
      var rest := path[|oldPath|..];
      var suffix := if rest != "" && rest[0] == '/' then rest[1..] else rest;
      if suffix != "" then newPath + "/" + suffix else newPath
  }

  /** The target text copy_symplink_rewrite gives to a copied link. */
  function RewriteLink(text: string, srcReal: string, dstReal: string): string {
    if text != "" && text[0] == '/' && HasPrefixPath(text, srcReal)
    then dstReal + text[|srcReal|..]
    else text
  }

  // ---------- text and components ----------

  lemma {:induction false} TextOfConcat(p: Path, q: Path)
    ensures Text(p + q) == Text(p) + Text(q)
  {
    if p == [] {
      assert p + q == q;
    } else {
      TextOfConcat(p[1..], q);
      assert (p + q)[1..] == p[1..] + q;
    }
  }

  lemma TextStartsWithSlash(p: Path)
    ensures p == [] || (Text(p) != "" && Text(p)[0] == '/')
  {
  }

  lemma SuffixText(p: Path, q: Path)
    requires q <= p
    ensures Text(p) == Text(q) + Text(p[|q|..])
    ensures Text(p)[|Text(q)|..] == Text(p[|q|..])
  {
    assert p == q + p[|q|..];
    TextOfConcat(q, p[|q|..]);
  }

  lemma FirstSlash(a: string, s: string)
    requires '/' !in a && (s == "" || s[0] == '/')
    ensures forall i | 0 <= i < |a| :: (a + s)[i] != '/'
    ensures |a| < |a + s| ==> (a + s)[|a|] == '/'
  {
  }

  /** Texts that begin with slash-free components, related by the prefix test, begin with the
      same component, and the test holds of what follows. */
  lemma SameFirstComponent(a: string, s: string, b: string, t: string)
    requires '/' !in a && '/' !in b
    requires s == "" || s[0] == '/'
    requires t == "" || t[0] == '/'
    requires HasPrefixPath(b + t, a + s)
    ensures a == b && HasPrefixPath(t, s)
  {
    var x, y := a + s, b + t;
    assert forall i | 0 <= i < |x| :: x[i] == y[i];
    FirstSlash(a, s);
    FirstSlash(b, t);
    if |a| != |b| {
      assert false;
    } else {
      assert a == x[..|a|] == y[..|a|] == b;
      assert s == x[|a|..] && t == y[|a|..];
      assert forall i | 0 <= i < |s| :: s[i] == x[|a| + i];
    }
  }

  lemma {:induction false} PrefixTestGivesPrefix(p: Path, q: Path)
    requires Canonical(p) && Canonical(q)
    requires HasPrefixPath(Text(p), Text(q))
    ensures q <= p
  {
    if q != [] {
      TextStartsWithSlash(p[1..]);
      TextStartsWithSlash(q[1..]);
      var a, s, b, t := q[0], Text(q[1..]), p[0], Text(p[1..]);
      assert Text(q) == "/" + (a + s) && Text(p) == "/" + (b + t);
      assert a + s == Text(q)[1..] && b + t == Text(p)[1..];
      SameFirstComponent(a, s, b, t);
      PrefixTestGivesPrefix(p[1..], q[1..]);
      assert p == [b] + p[1..] && q == [a] + q[1..];
    }
  }

  /** The textual prefix test decides exactly the component prefix relation. */
  lemma PrefixTestIsComponentwise(p: Path, q: Path)
    requires Canonical(p) && Canonical(q)
    ensures HasPrefixPath(Text(p), Text(q)) <==> q <= p
  {
    if q <= p {
      SuffixText(p, q);
      TextStartsWithSlash(p[|q|..]);
    } else if HasPrefixPath(Text(p), Text(q)) {
      PrefixTestGivesPrefix(p, q);
    }
  }

  /** Distinct canonical paths are spelled differently. */
  lemma TextIsInjective(p: Path, q: Path)
    requires Canonical(p) && Canonical(q) && Text(p) == Text(q)
    ensures p == q
  {
    PrefixTestIsComponentwise(p, q);
    PrefixTestIsComponentwise(q, p);
  }

  lemma DropSlash(r: Path)
    requires Canonical(r) && r != []
    ensures Text(r) != "" && Text(r)[0] == '/'
    ensures Text(r)[1..] != "" && "/" + Text(r)[1..] == Text(r)
  {
    assert Text(r)[1] == r[0][0];
  }

  lemma MapOfRest(srcReal: string, dstReal: string, rest: string)
    requires rest != "" ==> rest[0] == '/' && rest[1..] != ""
    ensures MapSrcToDst(srcReal, dstReal, srcReal + rest) ==
            if |dstReal + rest| < PATH_MAX then Some(dstReal + rest) else None
  {
    var path := srcReal + rest;
    assert path[|srcReal|..] == rest;
    if rest == "" {
      assert dstReal + rest == dstReal;
    } else {
      assert rest == "/" + rest[1..];
      assert dstReal + rest == dstReal + "/" + rest[1..];
    }
  }

  /** map_src_to_dst swaps the root: it succeeds exactly on the paths at or below the source
      root whose image fits, and its result spells the same path below the other root. */
  lemma MapSwapsTheRoot(src: Path, dst: Path, p: Path)
    requires Canonical(src) && Canonical(dst) && Canonical(p)
    ensures MapSrcToDst(Text(src), Text(dst), Text(p)) ==
            if src <= p && |Text(dst + p[|src|..])| < PATH_MAX
            then Some(Text(dst + p[|src|..])) else None
  {
    assert Text([]) == "";
    hide Text;
    PrefixTestIsComponentwise(p, src);
    if src <= p {
      hide MapSrcToDst;
      var r := p[|src|..];
      SuffixText(p, src);
      TextOfConcat(dst, r);
      if r != [] {
        DropSlash(r);
      }
      MapOfRest(Text(src), Text(dst), Text(r));
    }
  }

  lemma MapBelowTheRoot(src: Path, dst: Path, r: Path)
    requires Canonical(src) && Canonical(dst) && Canonical(r) && |Text(dst + r)| < PATH_MAX
    ensures MapSrcToDst(Text(src), Text(dst), Text(src + r)) == Some(Text(dst + r))
  {
    assert (src + r)[|src|..] == r;
    MapSwapsTheRoot(src, dst, src + r);
  }

  lemma PrefixTestBelowTheRoot(root: Path, r: Path, s: Path)
    requires Canonical(root) && Canonical(r) && Canonical(s)
    ensures HasPrefixPath(Text(root + r), Text(root + s)) <==> s <= r
  {
    PrefixTestIsComponentwise(root + r, root + s);
    PrefixAfterRoot(root, r, s);
  }

  /** The map is an order isomorphism whose inverse is the map with the roots swapped. */
  lemma MapIsOrderIsomorphism(src: Path, dst: Path, r: Path, s: Path)
    requires Canonical(src) && Canonical(dst) && Canonical(r) && Canonical(s)
    requires |Text(src + r)| < PATH_MAX && |Text(dst + r)| < PATH_MAX && |Text(dst + s)| < PATH_MAX
    ensures exists r', s' ::
              && MapSrcToDst(Text(src), Text(dst), Text(src + r)) == Some(r')
              && MapSrcToDst(Text(src), Text(dst), Text(src + s)) == Some(s')
              && (HasPrefixPath(Text(src + r), Text(src + s)) <==> HasPrefixPath(r', s'))
              && MapSrcToDst(Text(dst), Text(src), r') == Some(Text(src + r))
  {
    MapBelowTheRoot(src, dst, r);
    MapBelowTheRoot(src, dst, s);
    MapBelowTheRoot(dst, src, r);
    PrefixTestBelowTheRoot(src, r, s);
    PrefixTestBelowTheRoot(dst, r, s);
    var r', s' := Text(dst + r), Text(dst + s);
    assert HasPrefixPath(Text(src + r), Text(src + s)) <==> HasPrefixPath(r', s');
  }

  lemma PrefixAfterRoot(root: Path, p: Path, q: Path)
    ensures root + q <= root + p <==> q <= p
  {
    if root + q <= root + p {
      forall i | 0 <= i < |q| ensures q[i] == p[i] {
        assert (root + q)[|root| + i] == (root + p)[|root| + i];
      }
    }
    if q <= p {
      forall i | 0 <= i < |root + q| ensures (root + q)[i] == (root + p)[i] {
      }
    }
  }

  /** The path a moved directory's descendant has after the move. */
  function Rebase(p: Path, from: Path, to: Path): Path {
    if from <= p then to + p[|from|..] else p
  }

  lemma ReplaceOfRest(oldPath: string, newPath: string, rest: string)
    requires rest != "" ==> rest[0] == '/' && rest[1..] != ""
    ensures ReplacePrefix(oldPath + rest, oldPath, newPath) == newPath + rest
  {
    var path := oldPath + rest;
    assert path[|oldPath|..] == rest;
    if rest == "" {
      assert newPath + rest == newPath;
    } else {
      assert rest == "/" + rest[1..];
      assert newPath + rest == newPath + "/" + rest[1..];
    }
  }

  /** watch_update_prefix rewrites spellings exactly as a move rewrites paths. */
  lemma ReplacePrefixIsRebase(p: Path, from: Path, to: Path)
    requires Canonical(p) && Canonical(from) && Canonical(to)
    ensures ReplacePrefix(Text(p), Text(from), Text(to)) == Text(Rebase(p, from, to))
  {
    assert Text([]) == "";
    hide Text;
    PrefixTestIsComponentwise(p, from);
    if from <= p {
      hide ReplacePrefix;
      var r := p[|from|..];
      SuffixText(p, from);
      TextOfConcat(to, r);
      if r != [] {
        DropSlash(r);
      }
      ReplaceOfRest(Text(from), Text(to), Text(r));
    }
  }

  // ---------- link targets ----------

  /** `rest` leads from the directory spelled `root` to what the absolute target `text` names. */
  predicate LeadsFrom(text: string, root: string, rest: string) {
    text == root + rest && text != "" && text[0] == '/' && (rest == "" || rest[0] == '/')
  }

  /** What the copy of a link must say: a target in the source root becomes the same place in the
      other root, and any other target stays. */
  ghost predicate Retargeted(text: string, out: string, srcReal: string, dstReal: string) {
    && (forall rest | LeadsFrom(text, srcReal, rest) :: out == dstReal + rest)
    && ((forall rest :: !LeadsFrom(text, srcReal, rest)) ==> out == text)
  }

  lemma RewrittenIsRetargeted(text: string, srcReal: string, dstReal: string)
    ensures Retargeted(text, RewriteLink(text, srcReal, dstReal), srcReal, dstReal)
  {
    forall rest | LeadsFrom(text, srcReal, rest) ensures RewriteLink(text, srcReal, dstReal) == dstReal + rest {
      assert text[|srcReal|..] == rest;
    }
    if HasPrefixPath(text, srcReal) && text != "" && text[0] == '/' {
      var rest := text[|srcReal|..];
      assert text == srcReal + rest && LeadsFrom(text, srcReal, rest);
    }
  }

  lemma RetargetedIsUnique(text: string, out: string, other: string, srcReal: string, dstReal: string)
    requires Retargeted(text, out, srcReal, dstReal) && Retargeted(text, other, srcReal, dstReal)
    ensures out == other
  {
    if rest :| LeadsFrom(text, srcReal, rest) {
      assert out == dstReal + rest == other;
    }
  }

  /** In terms of paths: a link to `r` below the one root becomes a link to `r` below the other; one
      to a path outside, or to a relative path, stays. */
  lemma RetargetedPath(p: Path, out: string, src: Path, dst: Path)
    requires Canonical(p) && Canonical(src) && p != []
    requires Retargeted(Text(p), out, Text(src), Text(dst))
    ensures out == if src <= p then Text(dst + p[|src|..]) else Text(p)
  {
    PrefixTestIsComponentwise(p, src);
    if src <= p {
      var r := p[|src|..];
      SuffixText(p, src);
      TextOfConcat(dst, r);
      TextStartsWithSlash(p);
      TextStartsWithSlash(r);
      assert LeadsFrom(Text(p), Text(src), Text(r));
    } else {
      assert forall rest :: !LeadsFrom(Text(p), Text(src), rest);
    }
  }

  lemma RelativeStays(text: string, out: string, srcReal: string, dstReal: string)
    requires Retargeted(text, out, srcReal, dstReal) && (text == "" || text[0] != '/')
    ensures out == text
  {
  }

  /** Copying a link out and back (with the roots swapped) restores its target exactly when the
      target lies in the source root or outside the backup root. */
  lemma LinkRoundTrip(text: string, srcReal: string, dstReal: string)
    requires srcReal != "" && srcReal[0] == '/' && dstReal != "" && dstReal[0] == '/'
    requires srcReal != dstReal
    ensures RewriteLink(RewriteLink(text, srcReal, dstReal), dstReal, srcReal) == text
            <==> HasPrefixPath(text, srcReal) || !HasPrefixPath(text, dstReal)
  {
    var out := RewriteLink(text, srcReal, dstReal);
    if HasPrefixPath(text, srcReal) {
      var suffix := text[|srcReal|..];
      assert out == dstReal + suffix && out[|dstReal|..] == suffix;
      assert srcReal + suffix == text;
    } else if HasPrefixPath(text, dstReal) {
      var suffix := text[|dstReal|..];
      assert text == dstReal + suffix;
      assert out == text;
      assert RewriteLink(out, dstReal, srcReal) == srcReal + suffix;
      assert (srcReal + suffix)[..|srcReal|] == srcReal;
    }
  }
}
