/** Description cleanup: removal of tag-like text with the non-greedy pattern
    `<.*?>` (where `.` matches anything but a newline), then truncation to a
    fixed length with an ellipsis. */
module Cleanup {
  import opened Wrappers
  import opened Seqs

  /** Stored descriptions keep at most this many characters of the text... */
  const MaxDescription: nat := 200
  /** ...followed by this marker when they were cut. */
  const Ellipsis: string := "..."

  /** Where a match of `.*?>` starting at the beginning of `t` ends: the index
      of the first '>' of `t`, provided no newline comes before it. */
  function CloseOf(t: string): (r: Option<nat>)
    ensures r.Some? ==> r.value < |t| && t[r.value] == '>'
    ensures r.Some? ==> forall k :: 0 <= k < r.value ==> t[k] != '\n' && t[k] != '>'
    ensures r.None? <==> forall k :: 0 <= k < |t| && t[k] == '>' ==> exists m :: 0 <= m < k && t[m] == '\n'
    decreases |t|
  {
    if |t| == 0 then None
    else if t[0] == '\n' then None
    else if t[0] == '>' then Some(0)
    else
      match CloseOf(t[1..])
      case Some(j) => Some(j + 1)
      case None => None
  }

  /** `re.sub(r'<.*?>', '', s)`: a '<' that is closed by a later '>' on the
      same line is removed together with everything up to the first such '>';
      every other character is kept. */
  function StripTags(s: string): (r: string)
    ensures |r| <= |s|
    ensures forall i :: 0 <= i < |r| ==> r[i] in s
    decreases |s|
  {
    if |s| == 0 then ""
    else if s[0] == '<' && CloseOf(s[1..]).Some? then StripTags(s[1..][CloseOf(s[1..]).value + 1..])
    else [s[0]] + StripTags(s[1..])
  }

  /** No '<' of `s` is closed by a '>' on its line: the pattern has nothing to remove. */
  predicate TagFree(s: string) {
    forall i :: 0 <= i < |s| && s[i] == '<' ==> CloseOf(s[i + 1..]).None?
  }

  lemma TagFreeCons(c: char, t: string)
    ensures TagFree([c] + t) <==> (c == '<' ==> CloseOf(t).None?) && TagFree(t)
  {
    var s := [c] + t;
    assert s[1..] == t;
    forall i | 0 <= i < |t| ensures s[i + 1] == t[i] && s[i + 2..] == t[i + 1..] { }
    if TagFree(s) {
      forall i | 0 <= i < |t| && t[i] == '<' ensures CloseOf(t[i + 1..]).None? {
        assert s[i + 1] == '<';
      }
      if c == '<' {
        assert s[0] == '<';
      }
    }
    if (c == '<' ==> CloseOf(t).None?) && TagFree(t) {
      forall i | 0 <= i < |s| && s[i] == '<' ensures CloseOf(s[i + 1..]).None? {
        if i > 0 {
          assert t[i - 1] == '<';
        }
      }
    }
  }

  /** Stripping deletes characters and never reorders them. */
  lemma {:induction false} StripIsSubseq(s: string)
    ensures IsSubseq(StripTags(s), s)
    ensures |StripTags(s)| <= |s|
    decreases |s|
  {
    if |s| > 0 {
      if s[0] == '<' && CloseOf(s[1..]).Some? {
        var rest := s[1..][CloseOf(s[1..]).value + 1..];
        StripIsSubseq(rest);
        SuffixIsSubseq(s, |s| - |rest|);
        assert s[|s| - |rest|..] == rest;
        SubseqTrans(StripTags(s), rest, s);
      } else {
        StripIsSubseq(s[1..]);
        assert StripTags(s) == [s[0]] + StripTags(s[1..]);
      }
      SubseqBounds(StripTags(s), s);
    }
  }

  lemma {:induction false} SuffixIsSubseq(s: string, n: nat)
    requires n <= |s|
    ensures IsSubseq(s[n..], s)
    decreases n
  {
    if n == 0 {
      SubseqRefl(s);
    } else {
      SuffixIsSubseq(s[1..], n - 1);
      assert s[1..][n - 1..] == s[n..];
      SubseqOfTail(s[n..], s);
    }
  }

  /** Text the pattern has nothing to remove from is left unchanged. */
  lemma {:induction false} StripTagFree(s: string)
    requires TagFree(s)
    ensures StripTags(s) == s
    decreases |s|
  {
    if |s| > 0 {
      TagFreeCons(s[0], s[1..]);
      assert [s[0]] + s[1..] == s;
      StripTagFree(s[1..]);
    }
  }

  /** Removing characters cannot close a '<' that was open to the end of its line. */
  lemma {:induction false} StripKeepsOpen(t: string)
    requires CloseOf(t).None?
    ensures CloseOf(StripTags(t)).None?
    decreases |t|
  {
    if |t| > 0 && t[0] != '\n' {
      assert t[0] != '>';
      assert CloseOf(t[1..]).None?;
      StripKeepsOpen(t[1..]);
      var r := StripTags(t);
      assert r == [t[0]] + StripTags(t[1..]);
      assert r[1..] == StripTags(t[1..]);
    }
  }

  /** Stripped text holds no further tag. */
  lemma {:induction false} StripLeavesTagFree(s: string)
    ensures TagFree(StripTags(s))
    decreases |s|
  {
    if |s| > 0 {
      if s[0] == '<' && CloseOf(s[1..]).Some? {
        StripLeavesTagFree(s[1..][CloseOf(s[1..]).value + 1..]);
      } else {
        StripLeavesTagFree(s[1..]);
        if s[0] == '<' {
          StripKeepsOpen(s[1..]);
        }
        TagFreeCons(s[0], StripTags(s[1..]));
      }
    }
  }

  /** Stripping is idempotent, and it changes nothing exactly on tag-free text;
      in particular text without '<' passes through unchanged. */
  lemma StripIdempotent(s: string)
    ensures StripTags(StripTags(s)) == StripTags(s)
    ensures StripTags(s) == s <==> TagFree(s)
    ensures '<' !in s ==> StripTags(s) == s
  {
    StripLeavesTagFree(s);
    StripTagFree(StripTags(s));
    if TagFree(s) {
      StripTagFree(s);
    }
    if '<' !in s {
      assert TagFree(s);
      StripTagFree(s);
    }
  }

  /** Text without '<' is copied as it is, and stripping goes on after it. */
  lemma {:induction false} StripPlain(a: string, t: string)
    requires '<' !in a
    ensures StripTags(a + t) == a + StripTags(t)
    decreases |a|
  {
    if |a| > 0 {
      var s := a + t;
      assert s[0] == a[0] && s[1..] == a[1..] + t;
      StripPlain(a[1..], t);
      assert a == [a[0]] + a[1..];
    } else {
      assert a + t == t;
    }
  }

  /** A '<' closed by the first '>' on its line is removed with everything up
      to that '>', and stripping goes on after it. */
  lemma StripTagRemoved(m: string, b: string)
    requires '>' !in m && '\n' !in m
    ensures StripTags("<" + m + ">" + b) == StripTags(b)
  {
    var s := "<" + m + ">" + b;
    var t := m + ">" + b;
    assert s[0] == '<' && s[1..] == t;
    assert t[|m|] == '>';
    forall k | 0 <= k < |m| ensures t[k] == m[k] { }
    assert CloseOf(t).Some?;
    var j := CloseOf(t).value;
    assert j == |m|;
    assert t[j + 1..] == b;
  }

  /** A '<' with no '>' after it on its line is kept, and stripping goes on
      after it. */
  lemma StripUnclosedKept(t: string)
    requires CloseOf(t).None?
    ensures StripTags("<" + t) == "<" + StripTags(t)
  {
    var s := "<" + t;
    assert s[0] == '<' && s[1..] == t;
  }

  /** `s[:200] + '...' if len(s) > 200 else s`. */
  function Truncate(s: string): (r: string)
    ensures Min(|s|, MaxDescription) <= |r| <= MaxDescription + |Ellipsis|
    ensures r[..Min(|s|, MaxDescription)] == s[..Min(|s|, MaxDescription)]
    ensures |s| > MaxDescription ==> |r| == MaxDescription + |Ellipsis| && r[MaxDescription..] == Ellipsis
    ensures |s| <= MaxDescription ==> r == s
  {
    if |s| > MaxDescription then s[..MaxDescription] + Ellipsis else s
  }

  /** The description stored for an accepted entry. */
  function CleanDescription(raw: string): string {
    Truncate(StripTags(raw))
  }

  /** A prefix of tag-free text is tag-free, and so is tag-free text followed
      by the ellipsis. */
  lemma TagFreeTruncate(s: string)
    requires TagFree(s)
    ensures TagFree(Truncate(s))
  {
    if |s| > MaxDescription {
      var r := Truncate(s);
      forall i | 0 <= i < |r| && r[i] == '<' ensures CloseOf(r[i + 1..]).None? {
        assert i < MaxDescription;
        assert s[i] == '<';
        var t := s[i + 1..];
        var u := r[i + 1..];
        assert u == t[..MaxDescription - i - 1] + Ellipsis;
        assert CloseOf(t).None?;
        forall k | 0 <= k < |u| && u[k] == '>' ensures exists m :: 0 <= m < k && u[m] == '\n' {
          assert k < MaxDescription - i - 1 && t[k] == '>';
          var m :| 0 <= m < k && t[m] == '\n';
          assert u[m] == '\n';
        }
      }
    }
  }

  /** A stored description is at most 203 characters, holds no tag, and starts
      with the first (up to) 200 characters of the stripped text. */
  lemma CleanDescriptionProps(raw: string)
    ensures |CleanDescription(raw)| <= MaxDescription + |Ellipsis|
    ensures TagFree(CleanDescription(raw))
    ensures var n := Min(|StripTags(raw)|, MaxDescription);
      CleanDescription(raw)[..n] == StripTags(raw)[..n]
    ensures '<' !in raw && |raw| <= MaxDescription ==> CleanDescription(raw) == raw
  {
    StripLeavesTagFree(raw);
    TagFreeTruncate(StripTags(raw));
    StripIdempotent(raw);
  }
}
