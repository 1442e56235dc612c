/** The regular expression matcher of grep.c. A C string is the sequence of its characters
    before the terminating NUL; a position in it is an index. */
module Grep {

  // ---------------------------------------------------------------- what a pattern means

  /** One character, any number of one character, or the end of the text. The character
      '.' stands for any. */
  datatype Item = One(c: char) | Many(c: char) | End

  /** The items of a pattern, after any leading '^'. '*' applies to the character before
      it, and '$' is special only as the last character. */
  function Items(re: string): seq<Item> {
    if re == "" then []
    else if |re| >= 2 && re[1] == '*' then [Many(re[0])] + Items(re[2..])
    else if re == "$" then [End]
    else [One(re[0])] + Items(re[1..])
  }

  predicate Accepts(c: char, d: char) {
    c == '.' || c == d
  }

  /** The item matches text[i..j]. */
  predicate Spans(it: Item, text: string, i: int, j: int) {
    && 0 <= i <= j <= |text|
    && match it
       case One(c) => j == i + 1 && Accepts(c, text[i])
       case Many(c) => forall k :: i <= k < j ==> Accepts(c, text[k])
       case End => i == j == |text|
  }

  /** The text from position i on can be cut into one piece per item, up to a rest that
      does not matter. */
  ghost predicate Cuts(items: seq<Item>, text: string, i: int, cuts: seq<int>) {
    && |cuts| == |items| + 1 && cuts[0] == i && 0 <= i <= |text|
    && forall m :: 0 <= m < |items| ==> Spans(items[m], text, cuts[m], cuts[m + 1])
  }

  ghost predicate MatchesAt(items: seq<Item>, text: string, i: int) {
    exists cuts :: Cuts(items, text, i, cuts)
  }

  /** Some position matches, or the first one if the pattern starts with '^'. */
  ghost predicate Matches(re: string, text: string) {
    if re != "" && re[0] == '^' then MatchesAt(Items(re[1..]), text, 0)
    else exists i :: 0 <= i <= |text| && MatchesAt(Items(re), text, i)
  }

  // ---------------------------------------------------------------- how a pattern is written

  function ItemText(it: Item): string {
    match it
    case One(c) => [c]
    case Many(c) => [c, '*']
    case End => "$"
  }

  function PatternText(items: seq<Item>): string {
    if items == [] then "" else ItemText(items[0]) + PatternText(items[1..])
  }

  /** Items that a pattern says without ambiguity: the end of the text comes last, a single
      character is not followed by a star, and is not a final '$'. */
  predicate Plain(items: seq<Item>) {
    items == [] ||
    (&& Plain(items[1..])
     && (items[0].End? ==> items[1..] == [])
     && (items[0].One? ==> (PatternText(items[1..]) == "" ==> items[0].c != '$')
                           && (PatternText(items[1..]) != "" ==> PatternText(items[1..])[0] != '*')))
  }

  /** The items of a pattern are the only ones that are written as it is. */
  lemma {:induction false} ItemsIff(re: string, items: seq<Item>)
    ensures Items(re) == items <==> PatternText(items) == re && Plain(items)
  {
    ItemsPlain(re);
    if PatternText(items) == re && Plain(items) {
      PlainItems(items);
    }
  }

  lemma {:induction false} ItemsPlain(re: string)
    ensures PatternText(Items(re)) == re && Plain(Items(re))
    decreases |re|
  {
    if re == "" {
    } else if |re| >= 2 && re[1] == '*' {
      ItemsPlain(re[2..]);
      assert Items(re)[1..] == Items(re[2..]);
      assert re == [re[0], '*'] + re[2..];
    } else if re == "$" {
      assert [End][1..] == [];
      assert PatternText([End]) == "$" + "" == "$";
    } else {
      ItemsPlain(re[1..]);
      assert Items(re)[1..] == Items(re[1..]);
      assert re == [re[0]] + re[1..];
    }
  }

  lemma {:induction false} PlainItems(items: seq<Item>)
    requires Plain(items)
    ensures Items(PatternText(items)) == items
    decreases |items|
  {
    if items == [] {
    } else {
      PlainItems(items[1..]);
      var rest := PatternText(items[1..]);
      var re := ItemText(items[0]) + rest;
      match items[0]
      case One(c) =>
        assert re[1..] == rest;
      case Many(c) =>
        assert re[2..] == rest && re[1] == '*';
      case End =>
        assert items[1..] == [] && re == "$";
    }
  }

  // ---------------------------------------------------------------- one item at a time

  lemma NoItems(text: string, i: int)
    ensures MatchesAt([], text, i) <==> 0 <= i <= |text|
  {
    if 0 <= i <= |text| {
      assert Cuts([], text, i, [i]);
    }
  }

  lemma FirstItem(items: seq<Item>, text: string, i: int)
    requires items != [] && MatchesAt(items, text, i)
    ensures exists j :: Spans(items[0], text, i, j) && MatchesAt(items[1..], text, j)
  {
    var cuts :| Cuts(items, text, i, cuts);
    assert Spans(items[0], text, cuts[0], cuts[1]);
    assert Cuts(items[1..], text, cuts[1], cuts[1..]);
  }

  lemma AddItem(items: seq<Item>, text: string, i: int, j: int)
    requires items != [] && Spans(items[0], text, i, j) && MatchesAt(items[1..], text, j)
    ensures MatchesAt(items, text, i)
  {
    var cuts :| Cuts(items[1..], text, j, cuts);
    var all := [i] + cuts;
    forall m | 0 <= m < |items| ensures Spans(items[m], text, all[m], all[m + 1]) {
      if m > 0 {
        assert items[m] == items[1..][m - 1];
      }
    }
    assert Cuts(items, text, i, all);
  }

  // ---------------------------------------------------------------- grep.c

  /** matchhere: re at position i of text. */
  method MatchHere(re: string, text: string, i: nat) returns (r: bool)
    requires i <= |text|
    ensures r <==> MatchesAt(Items(re), text, i)
    decreases |re|, |text| - i
  {
    if re == "" {
      NoItems(text, i);
      return true;
    }
    var items := Items(re);
    if |re| >= 2 && re[1] == '*' {
      assert items[1..] == Items(re[2..]);
      r := MatchStar(re[0], re[2..], text, i, items);
      return;
    }
    if re == "$" {
      EndItem(text, i);
      return i == |text|;
    }
    assert items[1..] == Items(re[1..]);
    if MatchesAt(items, text, i) {
      FirstItem(items, text, i);
    }
    if i < |text| && (re[0] == '.' || re[0] == text[i]) {
      r := MatchHere(re[1..], text, i + 1);
      if r {
        AddItem(items, text, i, i + 1);
      }
      return;
    }
    return false;
  }

  /** matchstar: c*re at position i of text. */
  method MatchStar(c: char, re: string, text: string, i: nat, ghost items: seq<Item>) returns (r: bool)
    requires i <= |text| && items == [Many(c)] + Items(re) && items[1..] == Items(re)
    ensures r <==> MatchesAt(items, text, i)
    decreases |re| + 1, 0
  {
    var j := i;
    while true
      invariant i <= j <= |text|
      invariant forall k :: i <= k < j ==> Accepts(c, text[k])
      invariant forall k :: i <= k < j ==> !MatchesAt(Items(re), text, k)
      decreases |text| - j
    {
      var here := MatchHere(re, text, j);
      if here {
        AddItem(items, text, i, j);
        return true;
      }
      if j < |text| && (text[j] == c || c == '.') {
        j := j + 1;
      } else {
        break;
      }
    }
    if MatchesAt(items, text, i) {
      FirstItem(items, text, i);
      assert false;
    }
    return false;
  }

  lemma EndItem(text: string, i: nat)
    requires i <= |text|
    ensures MatchesAt([End], text, i) <==> i == |text|
  {
    if MatchesAt([End], text, i) {
      FirstItem([End], text, i);
    }
    if i == |text| {
      NoItems(text, i);
      assert [End][1..] == [];
      AddItem([End], text, i, i);
    }
  }

  /** match: the matcher agrees with the meaning of every pattern on every text. */
  method Match(re: string, text: string) returns (r: bool)
    ensures r <==> Matches(re, text)
  {
    if re != "" && re[0] == '^' {
      r := MatchHere(re[1..], text, 0);
      return;
    }
    var i := 0;
    while true
      invariant 0 <= i <= |text|
      invariant forall k :: 0 <= k < i ==> !MatchesAt(Items(re), text, k)
      decreases |text| - i
    {
      r := MatchHere(re, text, i);
      if r {
        return;
      }
      if i == |text| {
        return;
      }
      i := i + 1;
    }
  }
}
