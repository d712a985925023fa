/** `split` and `join` on a one-character separator. */
module Strings {
  function SplitOn(s: string, c: char): (parts: seq<string>)
    ensures parts != []
  {
    if s == "" then [""] else Before(s[0], SplitOn(s[1..], c), c)
  }

  /** The parts of a string that has one more character in front. */
  function Before(x: char, parts: seq<string>, c: char): (all: seq<string>)
    requires parts != []
    ensures all != []
  {
    if x == c then [""] + parts else [[x] + parts[0]] + parts[1..]
  }

  lemma BeforeAppend(x: char, a: seq<string>, b: seq<string>, c: char)
    requires a != []
    ensures Before(x, a + b, c) == Before(x, a, c) + b
  {
    assert (a + b)[0] == a[0] && (a + b)[1..] == a[1..] + b;
  }

  function JoinWith(parts: seq<string>, c: char): string {
    if parts == [] then "" else if |parts| == 1 then parts[0] else parts[0] + [c] + JoinWith(parts[1..], c)
  }

  lemma {:induction false} SplitHasNoSeparator(s: string, c: char)
    ensures forall p :: p in SplitOn(s, c) ==> c !in p
  {
    if s != "" { SplitHasNoSeparator(s[1..], c); }
  }

  lemma {:induction false} SplitSingle(s: string, c: char)
    requires c !in s
    ensures SplitOn(s, c) == [s]
  {
    if s != "" {
      SplitSingle(s[1..], c);
      assert [s[0]] + s[1..] == s;
    }
  }

  lemma {:induction false} SplitConcat(s: string, t: string, c: char)
    ensures SplitOn(s + [c] + t, c) == SplitOn(s, c) + SplitOn(t, c)
  {
    var u := s + [c] + t;
    if s == "" {
      assert u[1..] == t;
    } else {
      assert u[0] == s[0] && u[1..] == s[1..] + [c] + t;
      SplitConcat(s[1..], t, c);
      BeforeAppend(s[0], SplitOn(s[1..], c), SplitOn(t, c), c);
    }
  }

  lemma {:induction false} SplitJoin(parts: seq<string>, c: char)
    requires parts != [] && forall p :: p in parts ==> c !in p
    ensures SplitOn(JoinWith(parts, c), c) == parts
  {
    SplitSingle(parts[0], c);
    if |parts| > 1 {
      SplitJoin(parts[1..], c);
      SplitConcat(parts[0], JoinWith(parts[1..], c), c);
    }
  }

  /** A prefix without separators only lengthens the first part. */
  lemma {:induction false} SplitPrefix(prefix: string, s: string, c: char)
    requires c !in prefix
    ensures SplitOn(prefix + s, c) == [prefix + SplitOn(s, c)[0]] + SplitOn(s, c)[1..]
  {
    if prefix == "" {
      assert prefix + s == s && prefix + SplitOn(s, c)[0] == SplitOn(s, c)[0];
      assert [SplitOn(s, c)[0]] + SplitOn(s, c)[1..] == SplitOn(s, c);
    } else {
      assert (prefix + s)[0] == prefix[0] && (prefix + s)[1..] == prefix[1..] + s;
      SplitPrefix(prefix[1..], s, c);
      assert [prefix[0]] + (prefix[1..] + SplitOn(s, c)[0]) == prefix + SplitOn(s, c)[0];
    }
  }

  lemma SplitJoinFirst(part: string, back: seq<string>, c: char)
    requires forall p :: p in back ==> c !in p
    ensures SplitOn(JoinWith([part] + back, c), c) == SplitOn(part, c) + back
  {
    assert ([part] + back)[1..] == back;
    if back == [] {
      assert [part] + back == [part];
      assert SplitOn(part, c) + back == SplitOn(part, c);
    } else {
      SplitJoin(back, c);
      SplitConcat(part, JoinWith(back, c), c);
      assert JoinWith([part] + back, c) == part + [c] + JoinWith(back, c);
    }
  }

  lemma SplitJoinNext(first: string, all: seq<string>, c: char)
    requires c !in first && all != []
    ensures SplitOn(JoinWith([first] + all, c), c) == [first] + SplitOn(JoinWith(all, c), c)
  {
    assert ([first] + all)[1..] == all;
    SplitSingle(first, c);
    SplitConcat(first, JoinWith(all, c), c);
  }

  /** Joining and splitting again opens up one part that holds separators and keeps all others. */
  lemma {:induction false} SplitJoinAround(front: seq<string>, part: string, back: seq<string>, c: char)
    requires (forall p :: p in front ==> c !in p) && forall p :: p in back ==> c !in p
    ensures SplitOn(JoinWith(front + [part] + back, c), c) == front + SplitOn(part, c) + back
  {
    if front == [] {
      SplitJoinFirst(part, back, c);
      assert front + [part] + back == [part] + back;
      assert front + SplitOn(part, c) == SplitOn(part, c);
    } else {
      var rest := front[1..];
      SplitJoinAround(rest, part, back, c);
      SplitJoinNext(front[0], rest + [part] + back, c);
      FrontOfThree(front, [part], back);
      FrontOfThree(front, SplitOn(part, c), back);
    }
  }

  lemma FrontOfThree(front: seq<string>, middle: seq<string>, back: seq<string>)
    requires front != []
    ensures front + middle + back == [front[0]] + (front[1..] + middle + back)
  {
  }
}
