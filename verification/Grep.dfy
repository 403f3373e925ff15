/** The regular-expression matcher of grep.c against the meaning of its patterns. */
module Grep {
  import opened CStrings

  // One character (or any, for '.'), a run of them, or the end of the text.
  datatype Item = One(c: char) | Star(c: char) | End

  /** The items of a pattern: a starred character, a '$' that ends the pattern, any other character. */
  function Items(re: CString): seq<Item> {
    if re == [] then []
    else if |re| > 1 && re[1] == '*' then [Star(re[0])] + Items(re[2..])
    else if re == ['$'] then [End]
    else [One(re[0])] + Items(re[1..])
  }

  predicate Accepts(c: char, x: char) {
    c == '.' || c == x
  }

  /** t[a..b] is an instance of the item. */
  ghost predicate Instance(item: Item, t: seq<char>, a: int, b: int) {
    && 0 <= a <= b <= |t|
    && match item
       case One(c) => b == a + 1 && Accepts(c, t[a])
       case Star(c) => forall k :: a <= k < b ==> Accepts(c, t[k])
       case End => a == |t|
  }

  /** The text can be cut so that its pieces, from the first on, are instances of the items. */
  ghost predicate Begins(items: seq<Item>, t: seq<char>) {
    exists cuts :: Fits(items, t, cuts)
  }

  ghost predicate Fits(items: seq<Item>, t: seq<char>, cuts: seq<int>) {
    && |cuts| == |items| + 1 && cuts[0] == 0
    && forall k :: 0 <= k < |items| ==> Instance(items[k], t, cuts[k], cuts[k + 1])
  }

  lemma BeginsNone(t: seq<char>)
    ensures Begins([], t)
  {
    assert Fits([], t, [0]);
  }

  lemma InstanceShift(item: Item, t: seq<char>, n: nat, a: int, b: int)
    requires n <= |t| && 0 <= a <= b
    ensures Instance(item, t[n..], a, b) <==> Instance(item, t, a + n, b + n)
  {
    if Instance(item, t[n..], a, b) && item.Star? {
      forall k | a + n <= k < b + n
        ensures Accepts(item.c, t[k])
      {
        assert t[k] == t[n..][k - n];
      }
    }
  }

  /** The first item takes the first n characters, the other items the text after that. */
  lemma BeginsCons(x: Item, rest: seq<Item>, t: seq<char>)
    ensures Begins([x] + rest, t) <==> exists n :: 0 <= n <= |t| && Instance(x, t, 0, n) && Begins(rest, t[n..])
  {
    var items := [x] + rest;
    if cuts :| Fits(items, t, cuts) {
      var n := cuts[1];
      assert Instance(items[0], t, cuts[0], cuts[1]);
      CutsRise(items, t, cuts, |items|);
      var tail := seq(|rest| + 1, k requires 0 <= k <= |rest| => cuts[k + 1] - n);
      forall k | 0 <= k < |rest|
        ensures Instance(rest[k], t[n..], tail[k], tail[k + 1])
      {
        assert Instance(items[k + 1], t, cuts[k + 1], cuts[k + 2]);
        InstanceShift(rest[k], t, n, tail[k], tail[k + 1]);
      }
      assert Fits(rest, t[n..], tail);
    }
    if n :| 0 <= n <= |t| && Instance(x, t, 0, n) && Begins(rest, t[n..]) {
      BeginsJoin(x, rest, t, n);
    }
  }

  lemma BeginsJoin(x: Item, rest: seq<Item>, t: seq<char>, n: nat)
    requires n <= |t| && Instance(x, t, 0, n) && Begins(rest, t[n..])
    ensures Begins([x] + rest, t)
  {
    var tail :| Fits(rest, t[n..], tail);
    var items := [x] + rest;
    var cuts := [0] + seq(|tail|, k requires 0 <= k < |tail| => tail[k] + n);
    forall k | 0 <= k < |items|
      ensures Instance(items[k], t, cuts[k], cuts[k + 1])
    {
      if k > 0 {
        assert Instance(rest[k - 1], t[n..], tail[k - 1], tail[k]);
        InstanceShift(rest[k - 1], t, n, tail[k - 1], tail[k]);
      }
    }
    assert Fits(items, t, cuts);
  }

  lemma {:induction false} CutsRise(items: seq<Item>, t: seq<char>, cuts: seq<int>, m: nat)
    requires Fits(items, t, cuts) && 1 <= m <= |items|
    ensures forall k :: 1 <= k <= m ==> cuts[1] <= cuts[k] <= |t|
  {
    assert Instance(items[m - 1], t, cuts[m - 1], cuts[m]);
    if m > 1 {
      CutsRise(items, t, cuts, m - 1);
    }
  }

  /** matchhere: does the text begin with the pattern? */
  method MatchHere(re: CString, text: CString) returns (b: bool)
    ensures b <==> Begins(Items(re), text)
    decreases |re|, 0
  {
    if |re| == 0 {
      BeginsNone(text);
      return true;
    }
    if |re| > 1 && re[1] == '*' {
      b := MatchStar(re[0], re[2..], text);
      return;
    }
    if re[0] == '$' && |re| == 1 {
      EndOnly(text);
      return |text| == 0;
    }
    OneThen(re[0], Items(re[1..]), text);
    if |text| > 0 && (re[0] == '.' || re[0] == text[0]) {
      b := MatchHere(re[1..], text[1..]);
      return;
    }
    return false;
  }

  lemma EndOnly(t: seq<char>)
    ensures Begins([End], t) <==> t == []
  {
    BeginsCons(End, [], t);
    assert [End] + [] == [End];
    if t == [] {
      BeginsNone(t);
      assert t[0..] == t && Instance(End, t, 0, 0);
    }
  }

  lemma OneThen(c: char, rest: seq<Item>, t: seq<char>)
    ensures Begins([One(c)] + rest, t) <==> t != [] && Accepts(c, t[0]) && Begins(rest, t[1..])
  {
    BeginsCons(One(c), rest, t);
    if t != [] && Accepts(c, t[0]) && Begins(rest, t[1..]) {
      assert Instance(One(c), t, 0, 1);
    }
  }

  /** A dot takes any one character. */
  lemma AnyOne(rest: seq<Item>, t: seq<char>)
    ensures Begins([One('.')] + rest, t) <==> t != [] && Begins(rest, t[1..])
  {
    OneThen('.', rest, t);
  }

  /** A starred dot takes anything. */
  lemma AnyRun(rest: seq<Item>, t: seq<char>)
    ensures Begins([Star('.')] + rest, t) <==> exists n :: 0 <= n <= |t| && Begins(rest, t[n..])
  {
    hide Begins;
    BeginsCons(Star('.'), rest, t);
    forall n | 0 <= n <= |t|
      ensures Instance(Star('.'), t, 0, n)
    {
    }
  }

  /** A starred character is none of it, or one and then the same again. */
  lemma StarUnrolls(c: char, rest: seq<Item>, t: seq<char>)
    requires c != '.'
    ensures Begins([Star(c)] + rest, t) <==>
      Begins(rest, t) || (t != [] && t[0] == c && Begins([Star(c)] + rest, t[1..]))
  {
    hide Begins;
    BeginsCons(Star(c), rest, t);
    if n :| 0 <= n <= |t| && Instance(Star(c), t, 0, n) && Begins(rest, t[n..]) {
      assert t[0..] == t;
      if n > 0 {
        assert Accepts(c, t[0]) && t[1..][n - 1..] == t[n..];
        InstanceShift(Star(c), t, 1, 0, n - 1);
        BeginsCons(Star(c), rest, t[1..]);
      }
    }
    if Begins(rest, t) {
      assert Instance(Star(c), t, 0, 0) && t[0..] == t;
    }
    if t != [] && t[0] == c && Begins([Star(c)] + rest, t[1..]) {
      BeginsCons(Star(c), rest, t[1..]);
      var n :| 0 <= n <= |t[1..]| && Instance(Star(c), t[1..], 0, n) && Begins(rest, t[1..][n..]);
      InstanceShift(Star(c), t, 1, 0, n);
      assert t[1..][n..] == t[n + 1..] && Instance(Star(c), t, 0, n + 1);
    }
  }

  /** A pattern without special characters begins the texts that begin with it. */
  lemma {:induction false} Literal(re: CString, t: seq<char>)
    requires forall k :: 0 <= k < |re| ==> re[k] !in ".*$"
    ensures Begins(Items(re), t) <==> re <= t
  {
    hide Begins;
    if re == [] {
      BeginsNone(t);
    } else {
      assert |re| > 1 ==> re[1] != '*';
      OneThen(re[0], Items(re[1..]), t);
      assert re != ['$'];
      assert Items(re) == [One(re[0])] + Items(re[1..]);
      if t != [] {
        Literal(re[1..], t[1..]);
        assert re == [re[0]] + re[1..] && t == [t[0]] + t[1..];
        PrefixCons(re, t);
      }
    }
  }

  lemma PrefixCons(a: seq<char>, b: seq<char>)
    requires a != [] && b != []
    ensures a <= b <==> a[0] == b[0] && a[1..] <= b[1..]
  {
    if a[0] == b[0] && a[1..] <= b[1..] {
      assert a[1..] == b[1..][..|a| - 1];
      assert forall k :: 0 < k < |a| ==> a[k] == a[1..][k - 1];
      assert a == b[..|a|];
    }
  }

  /** matchstar: does the text begin with a run of c and then the pattern? */
  method MatchStar(c: char, re: CString, text: CString) returns (b: bool)
    ensures b <==> Begins([Star(c)] + Items(re), text)
    decreases |re|, 1
  {
    BeginsCons(Star(c), Items(re), text);
    var i := 0;
    while true
      invariant 0 <= i <= |text|
      invariant forall k :: 0 <= k < i ==> Accepts(c, text[k])
      invariant forall n :: 0 <= n < i ==> !Begins(Items(re), text[n..])
      decreases |text| - i
    {
      b := MatchHere(re, text[i..]);
      if b {
        assert Instance(Star(c), text, 0, i);
        return true;
      }
      if i == |text| || !(text[i] == c || c == '.') {
        return false;
      }
      i := i + 1;
    }
  }

  /** match: does the pattern occur in the text, at its start if the pattern says so? */
  method Match(re: CString, text: CString) returns (b: bool)
    ensures b <==>
      if re != [] && re[0] == '^' then Begins(Items(re[1..]), text)
      else exists i :: 0 <= i <= |text| && Begins(Items(re), text[i..])
  {
    if |re| > 0 && re[0] == '^' {
      b := MatchHere(re[1..], text);
      return;
    }
    var i := 0;
    while true
      invariant 0 <= i <= |text|
      invariant forall n :: 0 <= n < i ==> !Begins(Items(re), text[n..])
      decreases |text| - i
    {
      b := MatchHere(re, text[i..]);
      if b {
        return true;
      }
      if i == |text| {
        return false;
      }
      i := i + 1;
    }
  }
}
