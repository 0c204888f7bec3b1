/** The two string operations the experiment uses on item lists: TextUtils.join,
    which renders a trial's menu contents in a log row, and String.split on a
    one-character pattern, which reads an item list out of a task table. */
module Strings {

  /** TextUtils.join(sep, items): the items in order with sep between neighbours. */
  function Join(items: seq<string>, sep: char): (s: string)
    ensures |items| == 0 ==> s == ""
    ensures |items| == 1 ==> s == items[0]
    ensures |items| >= 2 ==> sep in s
  {
    if |items| == 0 then ""
    else if |items| == 1 then items[0]
    else items[0] + [sep] + Join(items[1..], sep)
  }

  /** The maximal runs of s that do not contain sep, empty runs included, in order. */
  function Pieces(s: string, sep: char): (ps: seq<string>)
    ensures |ps| >= 1
    ensures forall i :: 0 <= i < |ps| ==> sep !in ps[i]
  {
    if s == [] then [""]
    else if s[0] == sep then [""] + Pieces(s[1..], sep)
    else
      var rest := Pieces(s[1..], sep);
      [[s[0]] + rest[0]] + rest[1..]
  }

  /** ps without its trailing empty strings. */
  function DropTrailingEmpty(ps: seq<string>): (r: seq<string>)
    ensures r <= ps
    ensures r == [] || r[|r| - 1] != ""
    ensures forall i :: |r| <= i < |ps| ==> ps[i] == ""
  {
    if ps == [] then []
    else if ps[|ps| - 1] == "" then DropTrailingEmpty(ps[..|ps| - 1])
    else ps
  }

  /** s.split(sep) with Java's default limit: a string without sep splits into
      itself alone (even the empty string); otherwise into its pieces with the
      trailing empty ones removed. */
  function Split(s: string, sep: char): (r: seq<string>)
    ensures forall i :: 0 <= i < |r| ==> sep !in r[i]
    ensures sep !in s ==> r == [s]
  {
    if sep !in s then [s] else DropTrailingEmpty(Pieces(s, sep))
  }

  lemma {:induction false} PiecesWithoutSep(a: string, sep: char)
    requires sep !in a
    ensures Pieces(a, sep) == [a]
  {
    if a != [] {
      PiecesWithoutSep(a[1..], sep);
      assert [a[0]] + a[1..] == a;
    }
  }

  lemma {:induction false} PiecesAfterSep(a: string, sep: char, b: string)
    requires sep !in a
    ensures Pieces(a + [sep] + b, sep) == [a] + Pieces(b, sep)
  {
    var s := a + [sep] + b;
    if a == [] {
      assert s == [sep] + b;
      assert s[1..] == b;
    } else {
      assert s[0] == a[0];
      assert s[1..] == a[1..] + [sep] + b;
      PiecesAfterSep(a[1..], sep, b);
      assert [a[0]] + a[1..] == a;
    }
  }

  /** Splitting a join into its runs gives back the items, when no item holds sep. */
  lemma {:induction false} PiecesOfJoin(items: seq<string>, sep: char)
    requires |items| >= 1
    requires forall i :: 0 <= i < |items| ==> sep !in items[i]
    ensures Pieces(Join(items, sep), sep) == items
  {
    if |items| == 1 {
      PiecesWithoutSep(items[0], sep);
    } else {
      PiecesOfJoin(items[1..], sep);
      PiecesAfterSep(items[0], sep, Join(items[1..], sep));
      assert [items[0]] + items[1..] == items;
    }
  }

  /** split undoes join for a non-empty list of items free of sep whose last item is
      not empty (a single empty item also survives, since "" splits into [""]). */
  lemma SplitJoin(items: seq<string>, sep: char)
    requires |items| >= 1
    requires forall i :: 0 <= i < |items| ==> sep !in items[i]
    requires |items| == 1 || items[|items| - 1] != ""
    ensures Split(Join(items, sep), sep) == items
  {
    if |items| >= 2 {
      PiecesOfJoin(items, sep);
    }
  }

  /** Whatever split produces, joined and split again, comes back unchanged (unless
      split produced no items at all, as it does for a string of separators). */
  lemma SplitJoinSplit(s: string, sep: char)
    ensures |Split(s, sep)| >= 1 ==> Split(Join(Split(s, sep), sep), sep) == Split(s, sep)
  {
    var xs := Split(s, sep);
    if |xs| >= 1 {
      SplitJoin(xs, sep);
    }
  }

  /** The quirk of the default limit: a trailing empty item is lost in the round trip. */
  lemma SplitJoinDropsTrailingEmpty()
    ensures Split(Join(["a", ""], '/'), '/') == ["a"]
  {
    assert Join(["a", ""], '/') == ['a', '/'];
    PiecesOfJoin(["a", ""], '/');
  }
}
