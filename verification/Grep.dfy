/** grep's matcher: what a pattern means, by where the text can be cut, and the recursive matcher
    that decides it (grep.c). Patterns and texts are C strings, so they hold no NUL. */
module Grep {

  /** A pattern is a row of items: a character or dot, a starred one, or the end mark. */
  datatype Item = One(c: char) | Star(c: char) | AtEnd

  function Items(re: string): seq<Item> {
    if re == "" then []
    else if |re| > 1 && re[1] == '*' then [Star(re[0])] + Items(re[2..])
    else if re == "$" then [AtEnd]
    else [One(re[0])] + Items(re[1..])
  }

  predicate Fits(c: char, x: char) { c == '.' || x == c }

  /** Item it covers text[i..j]. */
  predicate Covers(it: Item, text: string, i: nat, j: nat)
    requires i <= j <= |text|
  {
    match it
    case One(c) => j == i + 1 && Fits(c, text[i])
    case Star(c) => forall k :: i <= k < j ==> Fits(c, text[k])
    case AtEnd => i == j == |text|
  }

  /** cuts splits a prefix of the text so that each item covers its piece. */
  predicate IsMatch(items: seq<Item>, text: string, cuts: seq<nat>) {
    && |cuts| == |items| + 1 && cuts[0] == 0 && cuts[|items|] <= |text|
    && (forall k :: 0 <= k < |items| ==> Piece(items, text, cuts, k))
  }

  predicate Piece(items: seq<Item>, text: string, cuts: seq<nat>, k: nat)
    requires k < |items| < |cuts|
  {
    cuts[k] <= cuts[k + 1] <= |text| && Covers(items[k], text, cuts[k], cuts[k + 1])
  }

  ghost predicate Accepts(items: seq<Item>, text: string) { exists cuts :: IsMatch(items, text, cuts) }

  /** What grep promises of a pattern and a line: with ^ a match at the start, else anywhere. */
  ghost predicate Selects(re: string, text: string) {
    if re != "" && re[0] == '^' then Accepts(Items(re[1..]), text)
    else exists i: nat :: i <= |text| && Accepts(Items(re), text[i..])
  }

  // ------------------------------------------------------------- the matcher

  function MatchHere(re: string, text: string): bool
    decreases |re|, |text|, 0
  {
    if re == "" then true
    else if |re| > 1 && re[1] == '*' then MatchStar(re[0], re[2..], text)
    else if re == "$" then text == ""
    else text != "" && Fits(re[0], text[0]) && MatchHere(re[1..], text[1..])
  }

  function MatchStar(c: char, re: string, text: string): bool
    decreases |re|, |text|, 1
  {
    MatchHere(re, text) || (text != "" && Fits(c, text[0]) && MatchStar(c, re, text[1..]))
  }

  // ------------------------------------------------ it decides the meaning

  function Shift(cuts: seq<nat>, n: nat): (r: seq<nat>)
    ensures |r| == |cuts| && forall k :: 0 <= k < |r| ==> r[k] == cuts[k] + n
  {
    seq(|cuts|, k requires 0 <= k < |cuts| => cuts[k] + n)
  }

  lemma CoversShift(it: Item, text: string, n: nat, i: nat, j: nat)
    requires n <= |text| && i <= j <= |text| - n
    ensures Covers(it, text[n..], i, j) <==> Covers(it, text, i + n, j + n)
  {
    if it.Star? {
      if Covers(it, text, i + n, j + n) {
        forall k | i <= k < j ensures Fits(it.c, text[n..][k]) { assert text[n..][k] == text[k + n]; }
      }
      if Covers(it, text[n..], i, j) {
        forall k | i + n <= k < j + n ensures Fits(it.c, text[k]) { assert text[n..][k - n] == text[k]; }
      }
    }
  }

  /** A first item that covers n characters, then a match of the rest. */
  lemma Prepend(it: Item, items: seq<Item>, text: string, n: nat, cuts: seq<nat>)
    requires n <= |text| && Covers(it, text, 0, n) && IsMatch(items, text[n..], cuts)
    ensures IsMatch([it] + items, text, [0] + Shift(cuts, n))
  {
    var all, cuts' := [it] + items, [0] + Shift(cuts, n);
    forall k | 0 <= k < |all| ensures Piece(all, text, cuts', k) {
      if k > 0 {
        assert Piece(items, text[n..], cuts, k - 1);
        assert all[k] == items[k - 1] && cuts'[k] == cuts[k - 1] + n && cuts'[k + 1] == cuts[k] + n;
        CoversShift(items[k - 1], text, n, cuts[k - 1], cuts[k]);
      }
    }
  }

  /** A match splits off its first item. */
  lemma Behead(items: seq<Item>, text: string, cuts: seq<nat>) returns (n: nat)
    requires items != [] && IsMatch(items, text, cuts)
    ensures n <= |text| && Covers(items[0], text, 0, n) && Accepts(items[1..], text[n..])
  {
    n := cuts[1];
    assert Piece(items, text, cuts, 0);
    Rising(items, text, cuts, 1);
    var tail: seq<nat> := Down(cuts[1..], n);
    forall k | 0 <= k < |items| - 1 ensures Piece(items[1..], text[n..], tail, k) {
      assert Piece(items, text, cuts, k + 1);
      assert tail[k] == cuts[k + 1] - n && tail[k + 1] == cuts[k + 2] - n;
      CoversShift(items[k + 1], text, n, tail[k], tail[k + 1]);
    }
    assert IsMatch(items[1..], text[n..], tail);
  }

  function Down(cuts: seq<nat>, n: nat): (r: seq<nat>)
    requires forall k :: 0 <= k < |cuts| ==> n <= cuts[k]
    ensures |r| == |cuts| && forall k :: 0 <= k < |r| ==> r[k] == cuts[k] - n
  {
    seq(|cuts|, k requires 0 <= k < |cuts| => cuts[k] - n)
  }

  lemma {:induction false} Rising(items: seq<Item>, text: string, cuts: seq<nat>, i: nat)
    requires IsMatch(items, text, cuts) && i <= |items|
    ensures forall k :: i <= k <= |items| ==> cuts[i] <= cuts[k]
    decreases |items| - i
  {
    if i < |items| {
      assert Piece(items, text, cuts, i);
      Rising(items, text, cuts, i + 1);
    }
  }

  lemma {:induction false} HereCorrect(re: string, text: string)
    ensures MatchHere(re, text) <==> Accepts(Items(re), text)
    decreases |re|, |text|, 0
  {
    if re == "" {
      assert IsMatch([], text, [0]);
    } else if |re| > 1 && re[1] == '*' {
      StarCorrect(re[0], re[2..], text);
    } else if re == "$" {
      EndCorrect(text);
    } else {
      if text != "" && Fits(re[0], text[0]) { HereCorrect(re[1..], text[1..]); }
      OneCorrect(re[0], Items(re[1..]), text);
    }
  }

  lemma EndCorrect(text: string)
    ensures Accepts([AtEnd], text) <==> text == ""
  {
    if text == "" { assert IsMatch([AtEnd], text, [0, 0]); }
    if Accepts([AtEnd], text) {
      var cuts :| IsMatch([AtEnd], text, cuts);
      assert Piece([AtEnd], text, cuts, 0);
    }
  }

  lemma OneCorrect(c: char, items: seq<Item>, text: string)
    ensures Accepts([One(c)] + items, text) <==> text != "" && Fits(c, text[0]) && Accepts(items, text[1..])
  {
    if text != "" && Fits(c, text[0]) && Accepts(items, text[1..]) {
      var cuts :| IsMatch(items, text[1..], cuts);
      Prepend(One(c), items, text, 1, cuts);
    }
    if Accepts([One(c)] + items, text) {
      var cuts :| IsMatch([One(c)] + items, text, cuts);
      var n := Behead([One(c)] + items, text, cuts);
      assert ([One(c)] + items)[1..] == items;
    }
  }

  lemma {:induction false} StarCorrect(c: char, re: string, text: string)
    ensures MatchStar(c, re, text) <==> Accepts([Star(c)] + Items(re), text)
    decreases |re|, |text|, 1
  {
    HereCorrect(re, text);
    if text != "" { StarCorrect(c, re, text[1..]); }
    StarUnfolds(c, Items(re), text);
  }

  /** A star covers nothing, or one character and then what a star covers. */
  lemma StarUnfolds(c: char, items: seq<Item>, text: string)
    ensures Accepts([Star(c)] + items, text) <==>
              Accepts(items, text) || (text != "" && Fits(c, text[0]) && Accepts([Star(c)] + items, text[1..]))
  {
    var all := [Star(c)] + items;
    assert all[1..] == items;
    if Accepts(items, text) {
      var cuts :| IsMatch(items, text, cuts);
      assert text[0..] == text;
      Prepend(Star(c), items, text, 0, cuts);
    }
    if text != "" && Fits(c, text[0]) && Accepts(all, text[1..]) { StarGrows(c, items, text); }
    if Accepts(all, text) { StarShrinks(c, items, text); }
  }

  lemma StarGrows(c: char, items: seq<Item>, text: string)
    requires text != "" && Fits(c, text[0]) && Accepts([Star(c)] + items, text[1..])
    ensures Accepts([Star(c)] + items, text)
  {
    hide IsMatch;
    var all := [Star(c)] + items;
    var cuts :| IsMatch(all, text[1..], cuts);
    var n := Behead(all, text[1..], cuts);
    assert all[1..] == items && text[1..][n..] == text[n + 1..];
    var rest :| IsMatch(items, text[n + 1..], rest);
    forall k | 0 <= k < n + 1 ensures Fits(c, text[k]) {
      if k > 0 { assert text[k] == text[1..][k - 1]; }
    }
    Prepend(Star(c), items, text, n + 1, rest);
  }

  lemma StarShrinks(c: char, items: seq<Item>, text: string)
    requires Accepts([Star(c)] + items, text)
    ensures Accepts(items, text) || (text != "" && Fits(c, text[0]) && Accepts([Star(c)] + items, text[1..]))
  {
    hide IsMatch;
    var all := [Star(c)] + items;
    var cuts :| IsMatch(all, text, cuts);
    var n := Behead(all, text, cuts);
    assert all[1..] == items;
    if n == 0 {
      assert text[0..] == text;
    } else {
      var rest :| IsMatch(items, text[n..], rest);
      assert text[1..][n - 1..] == text[n..];
      forall k | 0 <= k < n - 1 ensures Fits(c, text[1..][k]) { assert text[1..][k] == text[k + 1]; }
      Prepend(Star(c), items, text[1..], n - 1, rest);
    }
  }

  // ---------------------------------------------------------------- the code

  /** match's loop: try the pattern at each place, the empty end included. */
  method Match(re: string, text: string) returns (r: bool)
    ensures r <==> Selects(re, text)
  {
    if re != "" && re[0] == '^' {
      r := MatchHereAt(re, 1, text, 0);
      HereCorrect(re[1..], text);
      assert text[0..] == text;
      return;
    }
    var i := 0;
    while true
      invariant i <= |text|
      invariant forall j: nat :: j < i ==> !Accepts(Items(re), text[j..])
      decreases |text| - i
    {
      r := MatchHereAt(re, 0, text, i);
      assert re[0..] == re;
      HereCorrect(re, text[i..]);
      if r { return; }
      if i == |text| { break; }
      i := i + 1;
    }
    r := false;
  }

  /** matchhere on the pattern from m and the text from i. */
  method MatchHereAt(re: string, m: nat, text: string, i: nat) returns (r: bool)
    requires m <= |re| && i <= |text|
    ensures r == MatchHere(re[m..], text[i..])
    decreases |re| - m, |text| - i, 0
  {
    ghost var p, t := re[m..], text[i..];
    if m == |re| { return true; }
    if m + 1 < |re| && re[m + 1] == '*' {
      assert p[2..] == re[m + 2..];
      r := MatchStarAt(re[m], re, m + 2, text, i);
      return;
    }
    if re[m] == '$' && m + 1 == |re| {
      assert p == "$";
      return i == |text|;
    }
    assert p != "$";
    if i < |text| && (re[m] == '.' || re[m] == text[i]) {
      assert p[1..] == re[m + 1..] && t[1..] == text[i + 1..];
      r := MatchHereAt(re, m + 1, text, i + 1);
      return;
    }
    return false;
  }

  /** matchstar's loop: the rest of the pattern after zero, one, two ... characters. */
  method MatchStarAt(c: char, re: string, m: nat, text: string, i: nat) returns (r: bool)
    requires m <= |re| && i <= |text|
    ensures r == MatchStar(c, re[m..], text[i..])
    decreases |re| - m, |text| - i, 1
  {
    var j := i;
    while true
      invariant i <= j <= |text|
      invariant MatchStar(c, re[m..], text[i..]) == MatchStar(c, re[m..], text[j..])
      decreases |text| - j
    {
      r := MatchHereAt(re, m, text, j);
      if r { return; }
      if j == |text| || !(text[j] == c || c == '.') { break; }
      assert text[j..][1..] == text[j + 1..];
      j := j + 1;
    }
    r := false;
  }
}
