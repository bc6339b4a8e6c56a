/** The order of digest parameters does not matter (AuthHeaderMD5.cpp, the scanning loop). */
module DigestOrder {
  import opened Text
  import opened Digest
  import opened DigestPrinter

  function SegmentName(segment: string): string {
    var eq := IndexOf(segment, '=', 0);
    if eq == -1 then "" else Trim(segment[..eq])
  }

  /** A comma-free segment with a name and a value that can be unquoted. */
  predicate WellFormed(segment: string) {
    var eq := IndexOf(segment, '=', 0);
    eq != -1 && Free(segment, ',') && TrimDoubleQuotes(Trim(segment[eq + 1..])).Returned?
  }

  predicate AllWellFormed(segments: seq<string>) {
    forall s :: s in segments ==> WellFormed(s)
  }

  /** No two segments name the same parameter, up to case. */
  predicate DistinctNames(segments: seq<string>) {
    forall i, j :: 0 <= i < j < |segments| ==> !EqualsIgnoreCase(SegmentName(segments[i]), SegmentName(segments[j]))
  }

  function NameOf(field: Field): string {
    match field
    case Nonce => "nonce"
    case Opaque => "opaque"
    case Qop => "qop"
    case Algorithm => "algorithm"
    case Realm => "realm"
    case Username => "username"
    case Domain => "domain"
    case NonceCount => "nc"
    case ClientNonce => "cnonce"
    case Uri => "uri"
    case Response => "response"
  }

  lemma FieldHasItsName(name: string)
    ensures FieldNamed(name).Some? ==> EqualsIgnoreCase(name, NameOf(FieldNamed(name).value))
  {
    hide EqualsIgnoreCase;
  }

  lemma DistinctFields(a: string, b: string)
    requires FieldNamed(a).Some? && FieldNamed(a) == FieldNamed(b)
    ensures EqualsIgnoreCase(a, b)
  {
    hide FieldNamed, NameOf;
    FieldHasItsName(a);
    FieldHasItsName(b);
  }

  lemma AssignsCommute(p: AuthParams, f: Field, v: string, g: Field, w: string)
    requires f != g
    ensures Assign(Assign(p, f, v), g, w) == Assign(Assign(p, g, w), f, v)
  {
    hide ParseHex, Contains, EqualsIgnoreCase, Lower, ToInt32;
  }

  /** Two well-formed segments with different names can be applied in either order. */
  lemma SegmentsCommute(p: AuthParams, x: string, y: string)
    requires WellFormed(x) && WellFormed(y)
    requires !EqualsIgnoreCase(SegmentName(x), SegmentName(y))
    ensures ApplySegment(p, x).Returned? && ApplySegment(p, y).Returned?
    ensures ApplySegment(ApplySegment(p, x).value, y) == ApplySegment(ApplySegment(p, y).value, x)
  {
    hide Assign, FieldNamed, Trim, IndexOf, TrimDoubleQuotes, EqualsIgnoreCase;
    var f, g := FieldNamed(SegmentName(x)), FieldNamed(SegmentName(y));
    if f.Some? && g.Some? {
      if f == g {
        DistinctFields(SegmentName(x), SegmentName(y));
      }
      var v := TrimDoubleQuotes(Trim(x[IndexOf(x, '=', 0) + 1..])).value;
      var w := TrimDoubleQuotes(Trim(y[IndexOf(y, '=', 0) + 1..])).value;
      AssignsCommute(p, f.value, v, g.value, w);
    }
  }

  lemma {:induction false} MoveToFront(p: AuthParams, segments: seq<string>, i: nat)
    requires i < |segments| && AllWellFormed(segments) && DistinctNames(segments)
    ensures FoldSegments(p, segments) == FoldSegments(p, [segments[i]] + segments[..i] + segments[i + 1..])
    decreases i
  {
    hide ApplySegment, WellFormed, EqualsIgnoreCase, SegmentName, FoldSegments;
    var x := segments[i];
    if i == 0 {
      assert segments == [x] + segments[..0] + segments[1..];
    } else {
      var y, rest := segments[0], segments[1..];
      var moved := [x] + rest[..i - 1] + rest[i..];
      SegmentsCommute(p, y, x);
      MoveToFront(ApplySegment(p, y).value, rest, i - 1);
      assert rest[i - 1] == x;
      var target := [x] + segments[..i] + segments[i + 1..];
      assert target == [x, y] + moved[1..];
      WellFormedApplies(ApplySegment(p, x).value, y);
      WellFormedApplies(ApplySegment(p, y).value, x);
      FoldTwo(p, x, y, moved[1..]);
      FoldTwo(p, y, x, moved[1..]);
      assert [y] + moved == [y, x] + moved[1..];
      FoldOne(p, y, moved);
      FoldOne(p, y, rest);
      assert segments == [y] + rest;
    }
  }

  lemma FoldOne(p: AuthParams, x: string, rest: seq<string>)
    requires ApplySegment(p, x).Returned?
    ensures FoldSegments(p, [x] + rest) == FoldSegments(ApplySegment(p, x).value, rest)
  {
    hide ApplySegment;
    assert ([x] + rest)[1..] == rest;
  }

  lemma FoldTwo(p: AuthParams, x: string, y: string, rest: seq<string>)
    requires ApplySegment(p, x).Returned? && ApplySegment(ApplySegment(p, x).value, y).Returned?
    ensures FoldSegments(p, [x, y] + rest) == FoldSegments(ApplySegment(ApplySegment(p, x).value, y).value, rest)
  {
    hide ApplySegment, FoldSegments;
    assert [x, y] + rest == [x] + ([y] + rest);
    FoldOne(p, x, [y] + rest);
    FoldOne(ApplySegment(p, x).value, y, rest);
  }

  function Without(s: seq<string>, i: nat): seq<string>
    requires i < |s|
  {
    s[..i] + s[i + 1..]
  }

  lemma DistinctWithout(s: seq<string>, i: nat)
    requires i < |s| && DistinctNames(s) && AllWellFormed(s)
    ensures DistinctNames(Without(s, i)) && AllWellFormed(Without(s, i))
  {
    hide EqualsIgnoreCase, SegmentName, WellFormed;
    var t := Without(s, i);
    assert forall j :: 0 <= j < |t| ==> t[j] == s[if j < i then j else j + 1];
  }

  /** A permutation of segments with distinct names has distinct names. */
  lemma {:induction false} PermutedNames(a: seq<string>, b: seq<string>)
    requires multiset(a) == multiset(b) && DistinctNames(a)
    ensures DistinctNames(b)
    decreases |a|
  {
    hide EqualsIgnoreCase, SegmentName;
    if a == [] {
      assert |b| == |multiset(b)| == 0;
    } else {
      assert a[0] in multiset(a);
      var i :| 0 <= i < |b| && b[i] == a[0];
      var rest, others := Without(a, 0), Without(b, i);
      RemoveOne(a, 0);
      RemoveOne(b, i);
      PermutedNames(rest, others);
      forall j | 0 <= j < |others| ensures NamesDiffer(a[0], others[j]) {
        assert others[j] in multiset(others);
        var k :| 0 <= k < |rest| && rest[k] == others[j];
        assert a[k + 1] == rest[k];
      }
      InsertedNames(b, i);
    }
  }

  predicate NamesDiffer(x: string, y: string) {
    !EqualsIgnoreCase(SegmentName(x), SegmentName(y))
  }

  lemma InsertedNames(b: seq<string>, i: nat)
    requires i < |b| && DistinctNames(Without(b, i))
    requires forall j :: 0 <= j < |b| - 1 ==> NamesDiffer(b[i], Without(b, i)[j])
    ensures DistinctNames(b)
  {
    hide SegmentName;
    var others := Without(b, i);
    forall j, k | 0 <= j < k < |b| ensures NamesDiffer(b[j], b[k]) {
      var j', k' := if j < i then j else j - 1, if k < i then k else k - 1;
      if j == i {
        assert others[k'] == b[k];
      } else if k == i {
        assert others[j'] == b[j] && NamesDiffer(b[i], others[j']);
      } else {
        assert others[j'] == b[j] && others[k'] == b[k];
      }
    }
  }

  /** Reordered segments with distinct names have the same effect. */
  lemma {:induction false} OrderDoesNotMatter(p: AuthParams, a: seq<string>, b: seq<string>)
    requires multiset(a) == multiset(b)
    requires AllWellFormed(a) && DistinctNames(a)
    ensures FoldSegments(p, a) == FoldSegments(p, b)
    decreases |a|
  {
    hide ApplySegment, WellFormed, FoldSegments, AllWellFormed, DistinctNames;
    SameElements(a, b);
    if a == [] {
      assert |b| == |multiset(b)| == 0;
    } else {
      var x := a[0];
      assert x in multiset(a);
      var i :| 0 <= i < |b| && b[i] == x;
      var rest, others := Without(a, 0), Without(b, i);
      assert multiset(rest) == multiset(others) by {
        RemoveOne(a, 0);
        RemoveOne(b, i);
      }
      DistinctWithout(a, 0);
      PermutedNames(a, b);
      MoveToFront(p, b, i);
      assert a == [x] + rest && [x] + b[..i] + b[i + 1..] == [x] + others;
      FirstApplies(p, a);
      FoldOne(p, x, rest);
      FoldOne(p, x, others);
      OrderDoesNotMatter(ApplySegment(p, x).value, rest, others);
    }
  }

  lemma FirstApplies(p: AuthParams, a: seq<string>)
    requires a != [] && AllWellFormed(a)
    ensures ApplySegment(p, a[0]).Returned?
  {
    hide ApplySegment, WellFormed;
    WellFormedApplies(p, a[0]);
  }

  lemma RemoveOne(s: seq<string>, i: nat)
    requires i < |s|
    ensures multiset(Without(s, i)) == multiset(s) - multiset{s[i]}
  {
    assert s == s[..i] + [s[i]] + s[i + 1..];
  }

  lemma SameElements(a: seq<string>, b: seq<string>)
    requires multiset(a) == multiset(b)
    ensures AllWellFormed(a) ==> AllWellFormed(b)
  {
    hide WellFormed;
    forall s | s in b ensures s in a {
      assert s in multiset(b);
    }
  }

  lemma WellFormedApplies(p: AuthParams, x: string)
    requires WellFormed(x)
    ensures ApplySegment(p, x).Returned?
  {
    hide Trim, TrimDoubleQuotes, IndexOf, ParseParam;
  }

  /** Any two Digest headers whose comma-separated segments are permutations of each other read alike. */
  lemma HeaderOrderDoesNotMatter(p: AuthParams, a: seq<string>, b: seq<string>)
    requires a != [] && b != [] && multiset(a) == multiset(b)
    requires AllWellFormed(a) && DistinctNames(a)
    ensures ParseHeader(p, "Digest " + JoinSegments(a)) == ParseHeader(p, "Digest " + JoinSegments(b))
  {
    hide Segments, JoinSegments, FoldSegments, NamesDigest, IndexOf;
    SameElements(a, b);
    assert AllFree(a) && AllFree(b) by {
      assert forall i :: 0 <= i < |a| ==> a[i] in a;
      assert forall i :: 0 <= i < |b| ==> b[i] in b;
    }
    SegmentsOfJoin(JoinSegments(a), 0, a);
    SegmentsOfJoin(JoinSegments(b), 0, b);
    OrderDoesNotMatter(p, a, b);
    assert "Digest " + JoinSegments(a) == "Digest" + " " + JoinSegments(a);
    assert "Digest " + JoinSegments(b) == "Digest" + " " + JoinSegments(b);
    DigestHeader("Digest " + JoinSegments(a), JoinSegments(a));
    DigestHeader("Digest " + JoinSegments(b), JoinSegments(b));
  }
}
