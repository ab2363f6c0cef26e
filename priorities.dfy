/** The click-to-cycle priority of a task row. */
module Priorities {
  import opened Wrappers

  /** The fixed cycle `priorityOrder`. */
  const PriorityOrder: seq<string> := [Low, Medium, High, Urgent]

  const Low: string := "LOW"
  const Medium: string := "MEDIUM"
  const High: string := "HIGH"
  const Urgent: string := "URGENT"

  /** Upper-casing of one character, ASCII letters only. */
  function UpperChar(c: char): (u: char)
    ensures 'a' <= c <= 'z' ==> 'A' <= u <= 'Z' && u as int == c as int - 32
    ensures !('a' <= c <= 'z') ==> u == c
  {
    if 'a' <= c <= 'z' then (c as int - 32) as char else c
  }

  /** `String.prototype.toUpperCase`, restricted to ASCII letters. */
  function ToUpper(s: string): (r: string)
    ensures |r| == |s| && forall i :: 0 <= i < |s| ==> r[i] == UpperChar(s[i])
  {
    seq(|s|, i requires 0 <= i < |s| => UpperChar(s[i]))
  }

  /** The priority a row shows and cycles from: the upper-cased priority, or
      MEDIUM when that is null or empty. */
  function Normalize(p: Option<string>): (r: string)
    ensures r != ""
    ensures ToUpper(r) == r
  {
    if p.None? then Medium
    else
      var u := ToUpper(p.value);
      UpperIdempotent(p.value);
      if u == "" then Medium else u
  }

  /** `Array.prototype.indexOf`: the first position of `x` in `xs`, or -1. */
  function IndexOf(xs: seq<string>, x: string): (i: int)
    ensures -1 <= i < |xs|
    ensures i == -1 <==> x !in xs
    ensures 0 <= i ==> xs[i] == x && x !in xs[..i]
  {
    if xs == [] then -1
    else if xs[0] == x then 0
    else
      var j := IndexOf(xs[1..], x);
      if j == -1 then -1
      else
        assert xs[..j + 1] == [xs[0]] + xs[1..][..j];
        j + 1
  }

  /** The priority `cyclePriority` writes for a task whose priority is `current`. */
  function NextPriority(current: Option<string>): (r: string)
    ensures r in PriorityOrder
  {
    var i := IndexOf(PriorityOrder, Normalize(current));
    PriorityOrder[(i + 1) % |PriorityOrder|]
  }

  lemma UpperIdempotent(s: string)
    ensures ToUpper(ToUpper(s)) == ToUpper(s)
  {
  }

  /** Falsy input becomes MEDIUM; anything else is just upper-cased. */
  lemma NormalizeCases(p: Option<string>)
    ensures Falsy(p) ==> Normalize(p) == Medium
    ensures !Falsy(p) ==> Normalize(p) == ToUpper(p.value)
  {
  }

  /** A row normalises its priority before handing it to `cyclePriority`, which
      normalises again; the second normalisation changes nothing. */
  lemma NormalizeStable(p: Option<string>)
    ensures Normalize(Some(Normalize(p))) == Normalize(p)
    ensures NextPriority(Some(Normalize(p))) == NextPriority(p)
  {
  }

  /** A string with no lower-case ASCII letter is its own upper case. */
  lemma UpperFixed(s: string)
    requires forall i :: 0 <= i < |s| ==> !('a' <= s[i] <= 'z')
    ensures ToUpper(s) == s
  {
  }

  /** Every entry of the order is upper case and is found at its own position. */
  lemma OrderEntry(i: nat)
    requires i < |PriorityOrder|
    ensures Normalize(Some(PriorityOrder[i])) == PriorityOrder[i]
    ensures IndexOf(PriorityOrder, PriorityOrder[i]) == i
  {
    UpperFixed(PriorityOrder[i]);
    var x := PriorityOrder[i];
    if i == 0 {
    } else if i == 1 {
      assert PriorityOrder[0] != x;
    } else if i == 2 {
      assert PriorityOrder[0] != x && PriorityOrder[1] != x;
      assert PriorityOrder[1..][1..] == [High, Urgent];
    } else {
      assert PriorityOrder[0] != x && PriorityOrder[1] != x && PriorityOrder[2] != x;
      assert PriorityOrder[1..][1..][1..] == [Urgent];
    }
  }

  /** Each entry of the order advances to the next one, URGENT wrapping to LOW. */
  lemma NextFollowsOrder(i: nat)
    requires i < |PriorityOrder|
    ensures NextPriority(Some(PriorityOrder[i])) == PriorityOrder[if i == 3 then 0 else i + 1]
  {
    OrderEntry(i);
    if i == 3 { assert (i + 1) % 4 == 0; } else { assert (i + 1) % 4 == i + 1; }
  }

  /** Four clicks bring a recognised priority back to itself. */
  lemma CyclePeriodFour(i: nat)
    requires i < |PriorityOrder|
    ensures var p := PriorityOrder[i];
      NextPriority(Some(NextPriority(Some(NextPriority(Some(NextPriority(Some(p)))))))) == p
  {
    var j := if i == 3 then 0 else i + 1;
    var k := if j == 3 then 0 else j + 1;
    var l := if k == 3 then 0 else k + 1;
    NextFollowsOrder(i);
    var a := NextPriority(Some(PriorityOrder[i]));
    assert a == PriorityOrder[j];
    NextFollowsOrder(j);
    var b := NextPriority(Some(a));
    assert b == PriorityOrder[k];
    NextFollowsOrder(k);
    var c := NextPriority(Some(b));
    assert c == PriorityOrder[l];
    NextFollowsOrder(l);
  }

  /** The entries of the order are pairwise distinct. */
  lemma OrderDistinct(i: nat, j: nat)
    requires i < |PriorityOrder| && j < |PriorityOrder|
    requires PriorityOrder[i] == PriorityOrder[j]
    ensures i == j
  {
    OrderEntry(i);
    OrderEntry(j);
  }

  /** On the four recognised values the cycle is a bijection: distinct entries
      have distinct successors, and every entry is the successor of one. */
  lemma CycleBijective(i: nat, j: nat)
    requires i < |PriorityOrder| && j < |PriorityOrder|
    ensures NextPriority(Some(PriorityOrder[i])) == NextPriority(Some(PriorityOrder[j])) ==> i == j
    ensures NextPriority(Some(PriorityOrder[if j == 0 then 3 else j - 1])) == PriorityOrder[j]
  {
    var i', j' := if i == 3 then 0 else i + 1, if j == 3 then 0 else j + 1;
    NextFollowsOrder(i);
    NextFollowsOrder(j);
    if PriorityOrder[i'] == PriorityOrder[j'] {
      OrderDistinct(i', j');
    }
    NextFollowsOrder(if j == 0 then 3 else j - 1);
  }

  /** An absent or empty priority counts as MEDIUM, so the next one is HIGH. */
  lemma FalsyGoesHigh(p: Option<string>)
    requires Falsy(p)
    ensures NextPriority(p) == High
  {
    OrderEntry(1);
    assert Normalize(p) == PriorityOrder[1];
  }

  /** A non-empty string that is no entry of the order, even upper-cased, has
      index -1, so the next priority is LOW. */
  lemma UnrecognisedGoesLow(s: string)
    requires s != "" && ToUpper(s) !in PriorityOrder
    ensures NextPriority(Some(s)) == Low
  {
  }

  /** The cycle ignores letter case. */
  lemma CycleIgnoresCase(s: string)
    ensures NextPriority(Some(s)) == NextPriority(Some(ToUpper(s)))
  {
    UpperIdempotent(s);
    assert Normalize(Some(s)) == Normalize(Some(ToUpper(s)));
  }
}
