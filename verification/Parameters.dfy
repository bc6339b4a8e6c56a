/** What reading and replacing a header parameter amounts to (SipMessage.cpp; section 7.3.1 of RFC 3261). */
module Parameters {
  import opened Text
  import opened Messages

  predicate Letter(c: char) {
    'a' <= ToLower(c) <= 'z'
  }

  /** The name stands at `i` and is not part of a longer word. */
  predicate IsWord(v: string, name: string, i: nat) {
    OccursAt(v, name, i) && (i == 0 || !Letter(v[i - 1])) && (i + |name| == |v| || !Letter(v[i + |name|]))
  }

  /** The position found is the first at which the name is a word. */
  lemma {:induction false} WordAtFirst(v: string, name: string, start: nat)
    requires start <= |v| + 1 && name != ""
    ensures var r := WordAt(v, name, start);
            (r == -1 ==> forall i: nat :: start <= i ==> !IsWord(v, name, i)) &&
            (r != -1 ==> start <= r && IsWord(v, name, r) && forall i: nat :: start <= i < r ==> !IsWord(v, name, i))
    decreases |v| + 1 - start
  {
    hide OccursAt;
    var p := Find(v, name, start);
    if p >= 0 {
      assert OccursAt(v, name, p);
      assert p + |name| <= |v| by { Fits(v, name, p); }
      if !IsWord(v, name, p) {
        WordAtFirst(v, name, p + 1);
      }
    }
  }

  lemma Fits(v: string, name: string, i: nat)
    requires OccursAt(v, name, i)
    ensures i + |name| <= |v|
  {
  }

  /** A header value with a parameter in it: `before` has no such word, and the value ends at the next semicolon. */
  predicate HoldsParameter(v: string, before: string, name: string, value: string, behind: string) {
    && v == before + name + "=" + value + behind && name != ""
    && IsWord(v, name, |before|) && (forall i: nat :: i < |before| ==> !IsWord(v, name, i))
    && Free(value, ';') && (behind == "" || behind[0] == ';')
  }

  /** The rest of `v` from `i` on. */
  predicate Stands(v: string, i: nat, rest: string) {
    i <= |v| && v[i..] == rest
  }

  lemma ParameterPlace(v: string, before: string, name: string, value: string, behind: string)
    requires HoldsParameter(v, before, name, value, behind)
    ensures WordAt(v, name, 0) == |before|
    ensures var from := |before| + |name| + 1;
            |v| == from + |value| + |behind| && Stands(v, from, value + behind) &&
            ParameterEnd(v, |before| + |name|) == from + |value| + if behind == "" then 0 else 1
  {
    hide *;
    FoundBefore(v, before, name, value, behind);
    BehindName(v, before, name, value, behind);
    ValueEnd(v, |before| + |name|, value, behind);
  }

  lemma FirstWord(v: string, name: string, at: nat)
    requires name != "" && IsWord(v, name, at) && forall i: nat :: i < at ==> !IsWord(v, name, i)
    ensures WordAt(v, name, 0) == at
  {
    hide IsWord, WordAt;
    WordAtFirst(v, name, 0);
  }

  lemma FoundBefore(v: string, before: string, name: string, value: string, behind: string)
    requires HoldsParameter(v, before, name, value, behind)
    ensures WordAt(v, name, 0) == |before|
  {
    hide IsWord, WordAt;
    FirstWord(v, name, |before|);
  }

  lemma BehindName(v: string, before: string, name: string, value: string, behind: string)
    requires HoldsParameter(v, before, name, value, behind)
    ensures Stands(v, |before| + |name|, "=" + value + behind)
    ensures Free(value, ';') && (behind == "" || behind[0] == ';')
  {
    hide IsWord;
    assert v == (before + name) + ("=" + value + behind);
  }

  lemma ValueEnd(v: string, mark: nat, value: string, behind: string)
    requires Stands(v, mark, "=" + value + behind) && Free(value, ';') && (behind == "" || behind[0] == ';')
    ensures |v| == mark + 1 + |value| + |behind| && Stands(v, mark + 1, value + behind)
    ensures ParameterEnd(v, mark) == mark + 1 + |value| + if behind == "" then 0 else 1
  {
    hide IndexOf;
    var rest := v[mark..];
    assert |rest| == 1 + |value| + |behind| && rest[1..] == value + behind;
    assert forall i :: mark <= i < |v| ==> v[i] == rest[i - mark];
    assert forall i :: 1 <= i <= |value| ==> rest[i] == value[i - 1];
    if behind != "" {
      assert rest[1 + |value|] == ';';
      IndexOfFirst(v, ';', mark, mark + 1 + |value|);
    } else {
      assert IndexOf(v, ';', mark) == -1;
    }
  }

  /** What is read as a parameter runs on behind its value, over as many characters as stand up to the value's end; so
      the value itself is read exactly when nothing stands behind it. */
  lemma ParameterRunsOn(v: string, before: string, name: string, value: string, behind: string)
    requires HoldsParameter(v, before, name, value, behind)
    ensures HasParameter(v, name) && (ParameterOf(v, name) == value <==> behind == "")
    ensures |behind| <= |before| + |name| + 1 ==> ParameterOf(v, name) == value + behind
  {
    hide HoldsParameter, WordAt, ParameterEnd;
    ParameterPlace(v, before, name, value, behind);
    var from := |before| + |name| + 1;
    assert v[from..|v|] == v[from..];
    if behind != "" {
      assert |ParameterOf(v, name)| > |value|;
    } else {
      assert value + behind == value;
    }
  }

  /** Replacing puts the new text in place of the whole parameter and keeps what stands around it; without the
      parameter it is added. */
  lemma ParameterReplaced(v: string, before: string, name: string, value: string, behind: string, text: string)
    requires HoldsParameter(v, before, name, value, behind)
    ensures |behind| <= 1 ==> ReplaceParameter(v, name, text) == before + text
    ensures |behind| > 1 && behind[1] != ';' ==> ReplaceParameter(v, name, text) == before + text + behind
    ensures |behind| > 1 && behind[1] == ';' ==> ReplaceParameter(v, name, text) == before + text + behind[1..]
  {
    hide HoldsParameter, WordAt, ParameterEnd, Stands, ReplaceParameter;
    ParameterPlace(v, before, name, value, behind);
    StartsWith(v, before, name, value, behind);
    var end := |before| + |name| + 1 + |value| + if behind == "" then 0 else 1;
    if behind == "" {
      AllReplaced(v, name, text, |before|, end, "");
    } else {
      BehindValue(v, |before| + |name| + 1, value, behind);
      AllReplaced(v, name, text, |before|, end, behind[1..]);
      assert behind == ";" + behind[1..];
    }
  }

  lemma AllReplaced(v: string, name: string, text: string, p: nat, end: nat, rest: string)
    requires WordAt(v, name, 0) == p <= |v| && ParameterEnd(v, p + |name|) == end <= |v| && v[end..] == rest
    ensures ReplaceParameter(v, name, text)
            == v[..p] + text + (if rest != "" && rest[0] != ';' then ";" else "") + rest
  {
    hide WordAt, ParameterEnd;
  }

  lemma BehindValue(v: string, from: nat, value: string, behind: string)
    requires Stands(v, from, value + behind) && behind != ""
    ensures from + |value| + 1 <= |v| && v[from + |value| + 1..] == behind[1..]
  {
    assert behind == behind[..1] + behind[1..];
    assert v == v[..from] + value + behind[..1] + behind[1..];
  }

  lemma StartsWith(v: string, before: string, name: string, value: string, behind: string)
    requires HoldsParameter(v, before, name, value, behind)
    ensures v[..|before|] == before && (behind == "" || behind[0] == ';')
  {
    hide IsWord;
  }

  lemma ParameterAdded(v: string, name: string, text: string)
    requires !HasParameter(v, name)
    ensures ReplaceParameter(v, name, text) == v + ";" + text && ParameterOf(v, name) == ""
  {
  }

  /** A parameter that was added is there. */
  lemma AddedIsThere(v: string, name: string, value: string)
    requires name != ""
    ensures HasParameter(v + ";" + name + "=" + value, name)
  {
    hide WordAt;
    var w := v + ";" + name + "=" + value;
    var i := |v| + 1;
    assert w[i..i + |name|] == name && w[i - 1] == ';' && w[i + |name|] == '=';
    assert IsWord(w, name, i);
    WordAtFirst(w, name, 0);
  }
}
