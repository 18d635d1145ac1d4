/** Laws of dot products used in several proofs, with the products named by the caller. */
module VectorLaws {
  import opened Vectors

  /** A combination against `w`, from the products of its two parts. */
  lemma DotAxpyNamed(a: Vec, f: real, b: Vec, w: Vec, aw: real, bw: real)
    requires |a| == |b| == |w| && aw == Dot(a, w) && bw == Dot(b, w)
    ensures Dot(Axpy(a, f, b), w) == aw - f * bw
  {
    calc {
      Dot(Axpy(a, f, b), w);
      { DotAxpy(a, f, b, w); }
      Dot(a, w) - f * Dot(b, w);
      aw - f * bw;
    }
  }

  lemma DotAxpyRightNamed(w: Vec, a: Vec, f: real, b: Vec, wa: real, wb: real)
    requires |a| == |b| == |w| && wa == Dot(w, a) && wb == Dot(w, b)
    ensures Dot(w, Axpy(a, f, b)) == wa - f * wb
  {
    calc {
      Dot(w, Axpy(a, f, b));
      { DotAxpyRight(w, a, f, b); }
      Dot(w, a) - f * Dot(w, b);
      wa - f * wb;
    }
  }

  lemma {:induction false} DotOnes(n: nat)
    ensures Dot(Ones(n), Ones(n)) == n as real
  {
    if n > 0 {
      assert Ones(n)[..n - 1] == Ones(n - 1);
      DotOnes(n - 1);
    }
  }

  lemma CenteringAlgebra(p: real, n: real, a: real, b: real, si: real, sj: real)
    requires n * a == si && n * b == sj
    ensures (p - b * si) - a * (sj - b * n) == p - n * a * b
  {
    assert n * b == b * n && b * (n * a) == n * a * b;
  }

  lemma CenteredDot(ci: Vec, cj: Vec, a: real, b: real, n: real, si: real, sj: real, p: real)
    requires |ci| == |cj| && n == |ci| as real && p == Dot(ci, cj)
    requires si == Dot(Ones(|ci|), ci) && sj == Dot(Ones(|ci|), cj) && n * a == si && n * b == sj
    ensures Dot(Axpy(ci, a, Ones(|ci|)), Axpy(cj, b, Ones(|ci|))) == p - n * a * b
  {
    var one := Ones(|ci|);
    var ej := Axpy(cj, b, one);
    var pe, se := Dot(ci, ej), Dot(one, ej);
    calc {
      Dot(Axpy(ci, a, one), ej);
      { DotAxpyNamed(ci, a, one, ej, pe, se); }
      pe - a * se;
      { DotSymmetric(ci, one); DotAxpyRightNamed(ci, cj, b, one, p, si); }
      (p - b * si) - a * se;
      { DotOnes(|ci|); DotAxpyRightNamed(one, cj, b, one, sj, n); }
      (p - b * si) - a * (sj - b * n);
      { CenteringAlgebra(p, n, a, b, si, sj); }
      p - n * a * b;
    }
  }

  lemma AddMultiple(w: Vec, a: Vec, f: real, b: Vec, wa: real, wb: real)
    requires |a| == |b| == |w| && wa == Dot(w, a) && wb == Dot(w, b)
    ensures Dot(w, Axpy(a, -f, b)) == wa + f * wb
  {
    calc {
      Dot(w, Axpy(a, -f, b));
      { DotAxpyRightNamed(w, a, -f, b, wa, wb); }
      wa - -f * wb;
      { NegatedProduct(f, wb); }
      wa + f * wb;
    }
  }

  lemma NegatedProduct(f: real, x: real)
    ensures -f * x == -(f * x)
  {
  }
}
