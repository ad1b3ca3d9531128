/** Comparison of certificate bundles (calnex/cert/cert.go). A certificate is its raw bytes. */
module CertBundle {
  import opened Words

  datatype Certificate = Certificate(raw: seq<byte>)

  /** The search loop: the first remaining certificate that equals `cert`. */
  method Find(cert: Certificate, other: array<Certificate>, n: nat) returns (found: bool, i: nat)
    requires n <= other.Length
    ensures found ==> i < n && other[i] == cert && forall k :: 0 <= k < i ==> other[k] != cert
    ensures found <==> cert in multiset(other[..n])
  {
    found, i := false, 0;
    while i < n
      invariant i <= n && forall k :: 0 <= k < i ==> other[k] != cert
    {
      if other[i] == cert {
        return true, i;
      }
      i := i + 1;
    }
  }

  /** Element `i` overwritten by the last one, and the rest shortened by one. */
  function Filled<T>(s: seq<T>, i: nat): seq<T>
    requires i < |s|
  {
    s[i := s[|s| - 1]][..|s| - 1]
  }

  /** That takes one copy away. */
  lemma SwapRemove<T>(s: seq<T>, i: nat)
    requires i < |s|
    ensures multiset(Filled(s, i)) == multiset(s) - multiset{s[i]}
  {
    var n := |s| - 1;
    assert s == s[..n] + [s[n]];
    if i < n {
      var r := s[i := s[n]][..n];
      assert r == s[..n][i := s[n]];
      assert multiset(s[..n][i := s[n]]) == multiset(s[..n]) - multiset{s[i]} + multiset{s[n]};
    } else {
      assert s[i := s[n]][..n] == s[..n];
    }
  }

  /** What is left of `have` after the first `k` elements of `want` were taken out. */
  lemma Remaining(want: seq<Certificate>, k: nat, have: multiset<Certificate>, left: multiset<Certificate>)
    requires k < |want| && multiset(want[..k]) + left == have
    ensures want[k] in left ==> multiset(want[..k + 1]) + (left - multiset{want[k]}) == have
    ensures want[k] !in left ==> multiset(want) != have
  {
    assert want[..k + 1] == want[..k] + [want[k]];
    if want[k] !in left {
      assert want == want[..k + 1] + want[k + 1..];
      assert multiset(want)[want[k]] > have[want[k]];
    }
  }

  /**
   `Equals`: true exactly when the two lists hold the same certificates, each equally often, although
   the list of the other bundle is reordered on the way. The two may be one and the same list: then an
   entry is only ever overwritten after it was compared.
   */
  method Equals(certs: array<Certificate>, other: array<Certificate>) returns (equal: bool)
    modifies other
    ensures equal <==> multiset(old(certs[..])) == multiset(old(other[..]))
  {
    ghost var want, have := certs[..], multiset(other[..]);
    var n := other.Length;
    assert other[..n] == other[..];
    ghost var left := have;
    for k := 0 to certs.Length
      invariant 0 <= n <= other.Length && (certs == other ==> n == other.Length - k)
      invariant forall j :: k <= j < certs.Length ==> certs[j] == want[j]
      invariant left == multiset(other[..n]) && multiset(want[..k]) + left == have
    {
      var found, i := Find(certs[k], other, n);
      Remaining(want, k, have, left);
      if !found {
        return false;
      }
      assert certs == other && k < n ==> i <= k;
      n := Remove(other, n, i);
      left := left - multiset{want[k]};
    }
    assert want[..|want|] == want;
    assert |left| == n;
    return n == 0;
  }

  /** The removal takes one copy out of what remains. */
  method Remove(other: array<Certificate>, n: nat, i: nat) returns (m: nat)
    requires i < n <= other.Length
    modifies other
    ensures m == n - 1 && forall k :: 0 <= k < other.Length && k != i ==> other[k] == old(other[k])
    ensures multiset(other[..m]) == multiset(old(other[..n])) - multiset{old(other[i])}
  {
    hide Filled;
    SwapRemove(other[..n], i);
    m := FillGap(other, n, i);
  }

  /** The last remaining element moves into the gap. */
  method FillGap<T>(other: array<T>, n: nat, i: nat) returns (m: nat)
    requires i < n <= other.Length
    modifies other
    ensures m == n - 1 && forall k :: 0 <= k < other.Length && k != i ==> other[k] == old(other[k])
    ensures other[..m] == old(Filled(other[..n], i))
  {
    if n > 1 {
      other[i] := other[n - 1];
      m := n - 1;
    } else {
      m := 0;
    }
  }
}
