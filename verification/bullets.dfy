/** Summary formatting for the email body: every bullet character and every
    asterisk gets a line break in front of it
    (automation_news_daily.py, `send_news_digest_email`). */
module Bullets {

  const Bullet: char := '\U{2022}'
  const Star: char := '*'
  const Break: string := "<br>"

  predicate IsMark(c: char) { c == Bullet || c == Star }

  /** `s.replace(c, "<br>" + c)`. */
  function ReplaceChar(s: string, c: char): string
    decreases |s|
  {
    if |s| == 0 then []
    else (if s[0] == c then Break + [c] else [s[0]]) + ReplaceChar(s[1..], c)
  }

  /** The two replacements in the order the source applies them. */
  function FormatSummary(s: string): string {
    ReplaceChar(ReplaceChar(s, Bullet), Star)
  }

  /** Reference: one pass that puts a break before each bullet or asterisk. */
  function Expand(s: string): string
    decreases |s|
  {
    if |s| == 0 then []
    else (if IsMark(s[0]) then Break + [s[0]] else [s[0]]) + Expand(s[1..])
  }

  function MarkCount(s: string): nat
    decreases |s|
  {
    if |s| == 0 then 0 else (if IsMark(s[0]) then 1 else 0) + MarkCount(s[1..])
  }

  /** Inverse: drops a break that directly precedes a bullet or asterisk. */
  function Unformat(r: string): string
    decreases |r|
  {
    if |r| == 0 then []
    else if |r| >= 5 && r[..4] == Break && IsMark(r[4]) then [r[4]] + Unformat(r[5..])
    else [r[0]] + Unformat(r[1..])
  }

  lemma {:induction false} ReplaceAppend(a: string, b: string, c: char)
    ensures ReplaceChar(a + b, c) == ReplaceChar(a, c) + ReplaceChar(b, c)
    decreases |a|
  {
    if |a| == 0 {
      assert a + b == b;
    } else {
      assert (a + b)[1..] == a[1..] + b;
      ReplaceAppend(a[1..], b, c);
    }
  }

  /** Replacing a character that does not occur changes nothing. */
  lemma {:induction false} ReplaceAbsent(s: string, c: char)
    requires c !in s
    ensures ReplaceChar(s, c) == s
    decreases |s|
  {
    if |s| > 0 {
      assert c !in s[1..];
      ReplaceAbsent(s[1..], c);
      assert s == [s[0]] + s[1..];
    }
  }

  /** The second replacement never touches what the first inserted, so the two
      passes amount to the single reference pass. */
  lemma {:induction false} FormatIsExpand(s: string)
    ensures FormatSummary(s) == Expand(s)
    decreases |s|
  {
    if |s| > 0 {
      var head := if s[0] == Bullet then Break + [Bullet] else [s[0]];
      assert ReplaceChar(s, Bullet) == head + ReplaceChar(s[1..], Bullet);
      ReplaceAppend(head, ReplaceChar(s[1..], Bullet), Star);
      FormatIsExpand(s[1..]);
      if s[0] == Bullet {
        assert Star !in head;
        ReplaceAbsent(head, Star);
      } else if s[0] == Star {
        assert ReplaceChar(head, Star) == Break + [Star] by {
          assert ReplaceChar([Star], Star) == Break + [Star] + ReplaceChar([], Star);
        }
      } else {
        assert ReplaceChar(head, Star) == head by {
          assert ReplaceChar([s[0]], Star) == [s[0]] + ReplaceChar([], Star);
        }
      }
    }
  }

  /** Each bullet or asterisk adds the four characters of a break. */
  lemma {:induction false} FormatLength(s: string)
    ensures |FormatSummary(s)| == |s| + 4 * MarkCount(s)
    decreases |s|
  {
    FormatIsExpand(s);
    ExpandLength(s);
  }

  lemma {:induction false} ExpandLength(s: string)
    ensures |Expand(s)| == |s| + 4 * MarkCount(s)
    decreases |s|
  {
    if |s| > 0 {
      ExpandLength(s[1..]);
    }
  }

  lemma ExpandHead(t: string)
    requires |t| > 0
    ensures |Expand(t)| > 0 && !IsMark(Expand(t)[0])
    ensures !IsMark(t[0]) ==> Expand(t) == [t[0]] + Expand(t[1..])
  {
  }

  /** The reference pass never produces "br>" followed by a bullet or asterisk
      at its start, so a '<' kept before it cannot be read as a break. */
  lemma NoBreakTail(t: string)
    ensures !(|Expand(t)| >= 4 && Expand(t)[..3] == "br>" && IsMark(Expand(t)[3]))
  {
    var e := Expand(t);
    if |e| >= 4 && e[..3] == "br>" {
      assert e[0] == 'b';
      ExpandHead(t);
      assert !IsMark(t[0]) && e == [t[0]] + Expand(t[1..]);
      var t1 := t[1..];
      ExpandHead(t1);
      assert Expand(t1)[0] == e[1] == 'r';
      assert !IsMark(t1[0]) && Expand(t1) == [t1[0]] + Expand(t1[1..]);
      var t2 := t1[1..];
      ExpandHead(t2);
      assert Expand(t2)[0] == e[2] == '>';
      assert !IsMark(t2[0]) && Expand(t2) == [t2[0]] + Expand(t2[1..]);
      var t3 := t2[1..];
      assert e[3] == Expand(t3)[0];
      ExpandHead(t3);
    }
  }

  /** Dropping the inserted breaks recovers the original summary. */
  lemma {:induction false} UnformatRoundTrip(s: string)
    ensures Unformat(FormatSummary(s)) == s
    decreases |s|
  {
    FormatIsExpand(s);
    UnformatExpand(s);
  }

  lemma {:induction false} UnformatExpand(s: string)
    ensures Unformat(Expand(s)) == s
    decreases |s|
  {
    if |s| > 0 {
      var e := Expand(s);
      UnformatExpand(s[1..]);
      if IsMark(s[0]) {
        assert e == Break + [s[0]] + Expand(s[1..]);
        assert e[..4] == Break && e[4] == s[0] && e[5..] == Expand(s[1..]);
      } else {
        assert e == [s[0]] + Expand(s[1..]);
        NoBreakTail(s[1..]);
        assert !(|e| >= 5 && e[..4] == Break && IsMark(e[4])) by {
          if |e| >= 5 && e[..4] == Break {
            assert e[1..][..3] == "br>";
            assert e[1..] == Expand(s[1..]);
          }
        }
        assert e[1..] == Expand(s[1..]);
      }
      assert s == [s[0]] + s[1..];
    }
  }
}
