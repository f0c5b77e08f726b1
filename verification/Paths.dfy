/** Tag paths of the tagged file store, and the order the one-pass reader relies on. */
module Paths {
  import opened CStrings

  /** The section names from the outermost inwards, then the tag itself. */
  type Path = seq<string>

  /** Component by component; the first component that differs decides. */
  predicate PathLt(p: Path, q: Path) {
    p != [] && q != [] && (StrLt(p[0], q[0]) || (p[0] == q[0] && PathLt(p[1..], q[1..])))
  }

  /** Neither path is a proper prefix of the other: no name is both a tag and a section. */
  predicate Compatible(p: Path, q: Path) {
    !(p < q) && !(q < p)
  }

  lemma {:induction false} PathLtAt(p: Path, q: Path, k: nat)
    requires k < |p| && k < |q| && p[..k] == q[..k] && StrLt(p[k], q[k])
    ensures PathLt(p, q)
  {
    if k > 0 {
      assert p[0] == p[..k][0] == q[..k][0] == q[0];
      assert p[1..][..k - 1] == p[..k][1..] == q[..k][1..] == q[1..][..k - 1];
      PathLtAt(p[1..], q[1..], k - 1);
    }
  }

  lemma {:induction false} PathLtWitness(p: Path, q: Path) returns (k: nat)
    requires PathLt(p, q)
    ensures k < |p| && k < |q| && p[..k] == q[..k] && StrLt(p[k], q[k])
  {
    if StrLt(p[0], q[0]) {
      k := 0;
    } else {
      var j := PathLtWitness(p[1..], q[1..]);
      k := j + 1;
      assert p[..k] == [p[0]] + p[1..][..j] && q[..k] == [q[0]] + q[1..][..j];
    }
  }

  lemma {:induction false} PathLtTransitive(p: Path, q: Path, r: Path)
    requires PathLt(p, q) && PathLt(q, r)
    ensures PathLt(p, r)
  {
    if StrLt(p[0], q[0]) && StrLt(q[0], r[0]) {
      StrLtTransitive(p[0], q[0], r[0]);
    } else if p[0] == q[0] && q[0] == r[0] {
      PathLtTransitive(p[1..], q[1..], r[1..]);
    }
  }

  lemma {:induction false} PathLtAsymmetric(p: Path, q: Path)
    requires PathLt(p, q)
    ensures p != q && !PathLt(q, p) && Compatible(p, q)
  {
    StrLtTrichotomy(p[0], q[0]);
    if p[0] == q[0] {
      PathLtAsymmetric(p[1..], q[1..]);
      assert p == [p[0]] + p[1..] && q == [q[0]] + q[1..];
    }
  }

  /** Everything below or at `floor`, counting whatever lies inside it. */
  predicate Done(p: Path, floor: Path) {
    floor <= p || PathLt(p, floor)
  }

  lemma {:induction false} ExtendFloor(p: Path, q: Path, s: Path)
    requires PathLt(p, q)
    ensures PathLt(p, q + s)
  {
    var k := PathLtWitness(p, q);
    assert (q + s)[..k] == q[..k];
    PathLtAt(p, q + s, k);
  }

  /** What is done stays strictly below any later name in the same section. */
  lemma DoneBelow(p: Path, section: Path, top: string, tag: string)
    requires Done(p, section + [top]) && StrLt(top, tag)
    ensures PathLt(p, section + [tag])
  {
    var f, g := section + [top], section + [tag];
    var k := |section|;
    if f <= p {
      assert p[..k] == f[..k] == section == g[..k];
      assert p[k] == f[k] == top;
      PathLtAt(p, g, k);
    } else {
      var j := PathLtWitness(p, f);
      assert p[..j] == f[..j] == g[..j];
      if j == k {
        StrLtTransitive(p[j], top, tag);
      }
      PathLtAt(p, g, j);
    }
  }

  /** Leaving a section: what was done inside is done outside. */
  lemma DoneOutside(p: Path, section: Path, name: string, top: string)
    requires Done(p, section + [name] + [top])
    ensures Done(p, section + [name])
  {
    var f, g := section + [name] + [top], section + [name];
    assert f[..|g|] == g;
    if f <= p {
      assert p[..|g|] == f[..|g|] == g;
    } else {
      var j := PathLtWitness(p, f);
      if j < |g| {
        assert p[..j] == f[..j] == g[..j];
        PathLtAt(p, g, j);
      } else {
        assert p[..|g|] == f[..|g|] == g;
      }
    }
  }
}
