/** The order in which findings are listed: by identifier, package and version, each compared
    character by character. */
module KeyOrder {

  /** What identifies a finding: vulnerability, package, package version. */
  datatype Key = Key(vulnerability: string, package: string, version: string)

  predicate TextBefore(a: string, b: string) {
    if b == [] then false
    else if a == [] then true
    else if a[0] != b[0] then a[0] < b[0]
    else TextBefore(a[1..], b[1..])
  }

  predicate Before(a: Key, b: Key) {
    if a.vulnerability != b.vulnerability then TextBefore(a.vulnerability, b.vulnerability)
    else if a.package != b.package then TextBefore(a.package, b.package)
    else TextBefore(a.version, b.version)
  }

  lemma {:induction false} TextOrder(a: string, b: string)
    ensures TextBefore(a, b) ==> !TextBefore(b, a)
    ensures a != b ==> TextBefore(a, b) || TextBefore(b, a)
    ensures a == b ==> !TextBefore(a, b)
  {
    if a != [] && b != [] && a[0] == b[0] {
      TextOrder(a[1..], b[1..]);
      assert a == [a[0]] + a[1..] && b == [b[0]] + b[1..];
    }
  }

  lemma {:induction false} TextTransitive(a: string, b: string, c: string)
    requires TextBefore(a, b) && TextBefore(b, c)
    ensures TextBefore(a, c)
  {
    if a != [] && b != [] && c != [] && a[0] == b[0] == c[0] {
      TextTransitive(a[1..], b[1..], c[1..]);
    }
  }

  /** One text is before another when it is the beginning of it, or has the smaller character at the
      first place where they differ. */
  lemma {:induction false} TextBeforeIff(a: string, b: string)
    ensures TextBefore(a, b) <==>
              exists k | 0 <= k <= |a| :: k < |b| && a[..k] == b[..k] && (k == |a| || a[k] < b[k])
  {
    if a == [] || b == [] {
      assert a[..0] == b[..0];
    } else if a[0] != b[0] {
      assert a[..0] == b[..0];
      forall k | 0 < k <= |a| && k < |b|
        ensures a[..k] != b[..k]
      {
        assert a[..k][0] == a[0] && b[..k][0] == b[0];
      }
    } else {
      TextBeforeIff(a[1..], b[1..]);
      if k :| 0 <= k <= |a| && k < |b| && a[..k] == b[..k] && (k == |a| || a[k] < b[k]) {
        assert k > 0 && a[1..][..k - 1] == a[..k][1..] == b[..k][1..] == b[1..][..k - 1];
      }
      if k :| 0 <= k <= |a[1..]| && k < |b[1..]| && a[1..][..k] == b[1..][..k]
              && (k == |a[1..]| || a[1..][k] < b[1..][k]) {
        assert a[..k + 1] == [a[0]] + a[1..][..k] && b[..k + 1] == [b[0]] + b[1..][..k];
      }
    }
  }

  /** The identifier decides first, then the package, then its version. */
  lemma KeyBeforeIff(a: Key, b: Key)
    ensures Before(a, b) <==>
              || TextBefore(a.vulnerability, b.vulnerability)
              || (a.vulnerability == b.vulnerability
                  && (TextBefore(a.package, b.package)
                      || (a.package == b.package && TextBefore(a.version, b.version))))
  {
    TextOrder(a.vulnerability, b.vulnerability);
    TextOrder(a.package, b.package);
  }

  /** Keys are strictly and totally ordered. */
  lemma KeysOrdered(a: Key, b: Key)
    ensures Before(a, b) ==> !Before(b, a)
    ensures a != b ==> Before(a, b) || Before(b, a)
    ensures !Before(a, a)
  {
    TextOrder(a.vulnerability, b.vulnerability);
    TextOrder(a.package, b.package);
    TextOrder(a.version, b.version);
    TextOrder(a.version, a.version);
  }

  lemma KeysTransitive(a: Key, b: Key, c: Key)
    requires Before(a, b) && Before(b, c)
    ensures Before(a, c)
  {
    TextOrder(a.vulnerability, b.vulnerability);
    TextOrder(b.vulnerability, c.vulnerability);
    TextOrder(a.package, b.package);
    TextOrder(b.package, c.package);
    if a.vulnerability != b.vulnerability && b.vulnerability != c.vulnerability {
      TextTransitive(a.vulnerability, b.vulnerability, c.vulnerability);
    } else if a.vulnerability == b.vulnerability == c.vulnerability {
      if a.package != b.package && b.package != c.package {
        TextTransitive(a.package, b.package, c.package);
      } else if a.package == b.package == c.package {
        TextTransitive(a.version, b.version, c.version);
      }
    }
  }
}
