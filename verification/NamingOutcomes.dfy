/** What names come to: the order of strings, and which capability identifiers are valid. */
module NamingOutcomes {
  import opened Text
  import opened EvidenceModel

  /** Up to `k` the strings agree, and there the first ends or has the smaller character. */
  predicate DiffersAt(a: string, b: string, k: nat) {
    && k <= |a| && k < |b| && a[..k] == b[..k] && (k == |a| || a[k] < b[k])
  }

  lemma FirstDifference(a: string, b: string, k: nat)
    requires a != [] && b != [] && DiffersAt(a, b, k)
    ensures a[0] == b[0] || a[0] < b[0]
  {
    if k > 0 {
      assert a[..k][0] == b[..k][0];
    }
  }

  /** One string is less than another when it is a proper prefix or smaller at the first difference. */
  lemma {:induction false} LessMeans(a: string, b: string)
    ensures Less(a, b) <==> exists k :: 0 <= k <= |a| && DiffersAt(a, b, k)
  {
    if a == [] {
      assert b != [] ==> DiffersAt(a, b, 0);
    } else if b != [] {
      LessMeans(a[1..], b[1..]);
      assert a == [a[0]] + a[1..] && b == [b[0]] + b[1..];
      if a[0] == b[0] {
        if k :| 0 <= k <= |a[1..]| && DiffersAt(a[1..], b[1..], k) {
          assert a[..k + 1] == [a[0]] + a[1..][..k] && b[..k + 1] == [b[0]] + b[1..][..k];
          assert DiffersAt(a, b, k + 1);
        }
        if k :| 0 <= k <= |a| && DiffersAt(a, b, k) {
          assert k > 0;
          assert a[1..][..k - 1] == a[..k][1..] && b[1..][..k - 1] == b[..k][1..];
          assert DiffersAt(a[1..], b[1..], k - 1);
        }
      } else {
        assert a[0] < b[0] ==> DiffersAt(a, b, 0);
        forall k | 0 <= k <= |a| && DiffersAt(a, b, k) ensures a[0] < b[0] {
          FirstDifference(a, b, k);
        }
      }
    }
  }

  /** Lower-case letters, digits and underscores. */
  predicate IsSegment(s: string) {
    s != "" && forall k :: 0 <= k < |s| ==> 'a' <= s[k] <= 'z' || '0' <= s[k] <= '9' || s[k] == '_'
  }

  predicate IsNamespace(s: string) {
    || s == "context" || s == "systemd" || s == "storage" || s == "network"
    || s == "image" || s == "container" || s == "runtime" || s == "host"
  }

  /** An identifier is valid when its dot-separated parts are: a namespace and at least one more segment. */
  lemma CapabilityIDMeans(parts: seq<string>)
    requires parts != [] && forall k :: 0 <= k < |parts| ==> '.' !in parts[k]
    ensures ValidCapabilityID(Join(parts, '.')) <==>
      |parts| >= 2 && IsNamespace(parts[0]) && forall k :: 0 <= k < |parts| ==> IsSegment(parts[k])
  {
    SplitJoin(parts, '.');
    assert Split("", '.') == [""];
    NamespaceMeans(parts[0]);
    forall k | 0 <= k < |parts| ensures IsSegment(parts[k]) <==> ValidSegment(parts[k]) {
      SegmentMeans(parts[k]);
    }
  }

  lemma NamespaceMeans(s: string)
    ensures IsNamespace(s) <==> CanonicalNamespace(s)
  {
  }

  lemma SegmentMeans(s: string)
    ensures IsSegment(s) <==> ValidSegment(s)
  {
  }

  /** One more digit multiplies by ten and adds its value. */
  lemma DecimalMeans(s: string, c: char)
    requires AllDigits(s) && '0' <= c <= '9'
    ensures AllDigits(s + [c]) && Decimal(s + [c]) == 10 * Decimal(s) + (c as int - '0' as int)
    ensures Decimal("") == 0
  {
    assert (s + [c])[..|s|] == s;
  }
}
