/** The regular expressions of user/grep.c: what ^ . * $ and literals mean, and the matcher.
    Strings are C strings without their terminating NUL. */
module Regex {

  /** c stands for one character, c* for any number of them, and $ for the end of the text. */
  datatype Token = One(c: char) | Star(c: char) | End

  function Tokens(re: seq<char>): seq<Token> {
    if re == [] then []
    else if |re| >= 2 && re[1] == '*' then [Star(re[0])] + Tokens(re[2..])
    else if re == ['$'] then [End]
    else [One(re[0])] + Tokens(re[1..])
  }

  /** A token as it is written. */
  function Written(t: Token): seq<char> {
    match t
    case One(c) => [c]
    case Star(c) => [c, '*']
    case End => ['$']
  }

  function Shown(ts: seq<Token>): seq<char> {
    if ts == [] then [] else Written(ts[0]) + Shown(ts[1..])
  }

  /** The token lists that some pattern has: an ordinary character is not followed by a
      star, which would be its own, and is not a $ that ends the pattern; End ends it. */
  predicate Proper(ts: seq<Token>) {
    ts != [] ==>
      && Proper(ts[1..])
      && match ts[0]
         case One(c) => if |ts| == 1 then c != '$' else ts[1].End? || ts[1].c != '*'
         case Star(_) => true
         case End => |ts| == 1
  }

  /** Reading a pattern loses nothing: it is the written form of its tokens. */
  lemma {:induction false} ShownTokens(re: seq<char>)
    ensures Shown(Tokens(re)) == re && Proper(Tokens(re))
  {
    if re != [] && re != ['$'] {
      var n := if |re| >= 2 && re[1] == '*' then 2 else 1;
      ShownTokens(re[n..]);
      assert Tokens(re)[1..] == Tokens(re[n..]);
      assert re == Written(Tokens(re)[0]) + re[n..];
    }
  }

  /** And a token list is read back from its written form if and only if it is proper. */
  lemma {:induction false} TokensShown(ts: seq<Token>)
    ensures Tokens(Shown(ts)) == ts <==> Proper(ts)
  {
    ShownTokens(Shown(ts));
    if Proper(ts) && ts != [] {
      TokensShown(ts[1..]);
      var re := Shown(ts);
      assert re[|Written(ts[0])|..] == Shown(ts[1..]);
      assert ts == [ts[0]] + ts[1..];
    }
  }

  predicate Fits(c: char, x: char) { c == '.' || c == x }

  /** Token t describes text[i..j]. */
  ghost predicate Covers(t: Token, text: seq<char>, i: nat, j: nat) {
    i <= j <= |text| &&
    match t
    case One(c) => j == i + 1 && Fits(c, text[i])
    case Star(c) => forall k :: i <= k < j ==> Fits(c, text[k])
    case End => i == j == |text|
  }

  /** The tokens describe consecutive pieces of the text, from position i on: piece k is
      text[cuts[k]..cuts[k + 1]]. */
  ghost predicate Witness(ts: seq<Token>, text: seq<char>, i: nat, cuts: seq<nat>) {
    && |cuts| == |ts| + 1 && cuts[0] == i
    && forall k :: 0 <= k < |ts| ==> Covers(ts[k], text, cuts[k], cuts[k + 1])
  }

  ghost predicate MatchesAt(ts: seq<Token>, text: seq<char>, i: nat) {
    exists cuts :: Witness(ts, text, i, cuts)
  }

  /** What a regular expression means: ^ ties the match to the start of the text. */
  ghost predicate Matches(re: seq<char>, text: seq<char>) {
    if |re| > 0 && re[0] == '^' then MatchesAt(Tokens(re[1..]), text, 0)
    else exists i: nat :: i <= |text| && MatchesAt(Tokens(re), text, i)
  }

  lemma MatchesNothing(text: seq<char>, i: nat)
    ensures MatchesAt([], text, i)
  {
    assert Witness([], text, i, [i]);
  }

  lemma MatchesFirst(t: Token, ts: seq<Token>, text: seq<char>, i: nat, j: nat)
    requires Covers(t, text, i, j) && MatchesAt(ts, text, j)
    ensures MatchesAt([t] + ts, text, i)
  {
    var cuts :| Witness(ts, text, j, cuts);
    assert Witness([t] + ts, text, i, [i] + cuts);
  }

  lemma MatchesRest(t: Token, ts: seq<Token>, text: seq<char>, i: nat) returns (j: nat)
    requires MatchesAt([t] + ts, text, i)
    ensures Covers(t, text, i, j) && MatchesAt(ts, text, j)
  {
    var cuts :| Witness([t] + ts, text, i, cuts);
    j := cuts[1];
    assert ([t] + ts)[0] == t;
    forall k | 0 <= k < |ts| ensures Covers(ts[k], text, cuts[1..][k], cuts[1..][k + 1]) {
      assert ([t] + ts)[k + 1] == ts[k];
    }
    assert Witness(ts, text, j, cuts[1..]);
  }

  // ---- what a pattern means, by its text ------------------------------------------

  ghost predicate Here(re: seq<char>, text: seq<char>, i: nat) {
    MatchesAt(Tokens(re), text, i)
  }

  /** c*re matches here if and only if re matches behind some run of characters c, where a
      dot stands for any character. */
  lemma StarText(c: char, re: seq<char>, text: seq<char>, i: nat)
    requires i <= |text|
    ensures Here([c, '*'] + re, text, i) <==>
            exists j :: i <= j <= |text| && (c == '.' || forall k :: i <= k < j ==> text[k] == c) && Here(re, text, j)
  {
    var p := [c, '*'] + re;
    assert p[2..] == re;
    if Here(p, text, i) {
      var j := MatchesRest(Star(c), Tokens(re), text, i);
      assert Here(re, text, j);
    }
    forall j | i <= j <= |text| && (c == '.' || forall k :: i <= k < j ==> text[k] == c) && Here(re, text, j)
      ensures Here(p, text, i)
    {
      MatchesFirst(Star(c), Tokens(re), text, i, j);
    }
  }

  /** A character that no star follows and that is not a $ at the end: it, or any character
      for a dot, and then the rest. */
  lemma CharText(c: char, re: seq<char>, text: seq<char>, i: nat)
    requires i <= |text| && (re == [] ==> c != '$') && (re != [] ==> re[0] != '*')
    ensures Here([c] + re, text, i) <==> i < |text| && (c == '.' || c == text[i]) && Here(re, text, i + 1)
  {
    var p := [c] + re;
    assert p[1..] == re;
    if Here(p, text, i) {
      var j := MatchesRest(One(c), Tokens(re), text, i);
    }
    if i < |text| && (c == '.' || c == text[i]) && Here(re, text, i + 1) {
      MatchesFirst(One(c), Tokens(re), text, i, i + 1);
    }
  }

  /** The empty pattern matches everywhere, and $ at the end of the text only. */
  lemma EndText(text: seq<char>, i: nat)
    requires i <= |text|
    ensures Here([], text, i)
    ensures Here(['$'], text, i) <==> i == |text|
  {
    MatchesNothing(text, i);
    assert Tokens(['$']) == [End] + [];
    if Here(['$'], text, i) {
      var j := MatchesRest(End, [], text, i);
    }
    if i == |text| {
      MatchesFirst(End, [], text, i, i);
    }
  }

  /** ^re matches at the start of the text only; any other pattern anywhere. */
  lemma AnchorText(re: seq<char>, text: seq<char>)
    ensures Matches(['^'] + re, text) <==> Here(re, text, 0)
    ensures re == [] || re[0] != '^' ==>
              (Matches(re, text) <==> exists i: nat :: i <= |text| && Here(re, text, i))
  {
    assert (['^'] + re)[1..] == re;
    forall i: nat ensures Here(re, text, i) <==> MatchesAt(Tokens(re), text, i) {}
  }

  predicate Plain(re: seq<char>) {
    forall k :: 0 <= k < |re| ==> re[k] !in ['^', '.', '*', '$']
  }

  lemma {:induction false} PlainHere(re: seq<char>, text: seq<char>, i: nat)
    requires Plain(re) && i <= |text|
    ensures Here(re, text, i) <==> re <= text[i..]
  {
    EndText(text, i);
    if re != [] {
      assert Plain(re[1..]) && re == [re[0]] + re[1..];
      CharText(re[0], re[1..], text, i);
      if i < |text| {
        PlainHere(re[1..], text, i + 1);
        assert text[i..] == [text[i]] + text[i + 1..];
      }
    }
  }

  ghost predicate OccursAt(re: seq<char>, text: seq<char>, i: nat) {
    i <= |text| && re <= text[i..]
  }

  /** A pattern of ordinary characters matches if and only if it occurs in the text. */
  lemma PlainText(re: seq<char>, text: seq<char>)
    requires Plain(re)
    ensures Matches(re, text) <==> exists i :: OccursAt(re, text, i)
  {
    forall i: nat | i <= |text| ensures MatchesAt(Tokens(re), text, i) <==> OccursAt(re, text, i) {
      PlainHere(re, text, i);
    }
  }

  /** user/grep.c:83-94: matchhere is sound and complete for a match that begins here. */
  method MatchHere(re: seq<char>, text: seq<char>, i: nat) returns (r: bool)
    requires i <= |text|
    ensures r <==> MatchesAt(Tokens(re), text, i)
    decreases |re|, 0
  {
    if re == [] {
      MatchesNothing(text, i);
      return true;
    }
    if |re| >= 2 && re[1] == '*' {
      r := MatchStar(re[0], re[2..], text, i);
      return;
    }
    if re == ['$'] {
      r := i == |text|;
      assert Tokens(re) == [End] + [];
      if r {
        MatchesNothing(text, i);
        MatchesFirst(End, [], text, i, i);
      } else if MatchesAt(Tokens(re), text, i) {
        var j := MatchesRest(End, [], text, i);
      }
      return;
    }
    if i < |text| && (re[0] == '.' || re[0] == text[i]) {
      r := MatchHere(re[1..], text, i + 1);
      if r {
        MatchesFirst(One(re[0]), Tokens(re[1..]), text, i, i + 1);
      } else if MatchesAt(Tokens(re), text, i) {
        var j := MatchesRest(One(re[0]), Tokens(re[1..]), text, i);
      }
      return;
    }
    if MatchesAt(Tokens(re), text, i) {
      var j := MatchesRest(One(re[0]), Tokens(re[1..]), text, i);
    }
    r := false;
  }

  /** user/grep.c:97-104: c* followed by re; tries every number of repetitions that the text
      allows, fewest first. */
  method MatchStar(c: char, re: seq<char>, text: seq<char>, i: nat) returns (r: bool)
    requires i <= |text|
    ensures r <==> MatchesAt([Star(c)] + Tokens(re), text, i)
    decreases |re|, 1
  {
    var k := i;
    while true
      invariant i <= k <= |text|
      invariant forall x :: i <= x < k ==> Fits(c, text[x])
      invariant forall j: nat :: i <= j < k ==> !MatchesAt(Tokens(re), text, j)
      decreases |text| - k
    {
      var here := MatchHere(re, text, k);
      if here {
        MatchesFirst(Star(c), Tokens(re), text, i, k);
        return true;
      }
      if k == |text| || !(text[k] == c || c == '.') {
        if MatchesAt([Star(c)] + Tokens(re), text, i) {
          var j := MatchesRest(Star(c), Tokens(re), text, i);
        }
        return false;
      }
      k := k + 1;
    }
  }

  /** user/grep.c:71-80. */
  method Match(re: seq<char>, text: seq<char>) returns (r: bool)
    ensures r <==> Matches(re, text)
  {
    if |re| > 0 && re[0] == '^' {
      r := MatchHere(re[1..], text, 0);
      return;
    }
    var i := 0;
    while true
      invariant 0 <= i <= |text|
      invariant forall j: nat :: j < i ==> !MatchesAt(Tokens(re), text, j)
      decreases |text| - i
    {
      var here := MatchHere(re, text, i);
      if here { return true; }
      if i == |text| { return false; }
      i := i + 1;
    }
  }
}
