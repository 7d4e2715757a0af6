/**
 * The text filter of the credit-card list: a card is kept when its lowercased
 * id contains the lowercased filter text, and the filter is applied to the
 * revealed window only.
 */
module CardFilter {
  import opened Opt
  import opened Cards

  /** ASCII lowercasing; letters outside A-Z are left as they are. */
  function LowerChar(c: char): char {
    if 'A' <= c <= 'Z' then (c as int + 32) as char else c
  }

  function Lower(s: string): (r: string)
    ensures |r| == |s|
    ensures forall i :: 0 <= i < |s| ==> r[i] == LowerChar(s[i])
  {
    seq(|s|, i requires 0 <= i < |s| => LowerChar(s[i]))
  }

  /** Lowercasing twice is lowercasing once. */
  lemma LowerIdempotent(s: string)
    ensures Lower(Lower(s)) == Lower(s)
  {
    assert forall i :: 0 <= i < |s| ==> LowerChar(LowerChar(s[i])) == LowerChar(s[i]);
  }

  /** `s.includes(t)`: t occurs in s as a contiguous piece. */
  predicate Includes(s: string, t: string)
    decreases |s|
  {
    t <= s || (s != [] && Includes(s[1..], t))
  }

  /** `Includes` agrees with the textbook definition of a substring: some
      suffix of s starts with t. */
  lemma {:induction false} IncludesAt(s: string, t: string)
    ensures Includes(s, t) <==> exists i :: 0 <= i <= |s| && t <= s[i..]
    decreases |s|
  {
    if t <= s {
      assert s[0..] == s;
    } else if s == [] {
      forall i | 0 <= i <= |s| ensures !(t <= s[i..]) {
        assert s[i..] == s;
      }
    } else {
      IncludesAt(s[1..], t);
      if Includes(s[1..], t) {
        var i :| 0 <= i <= |s[1..]| && t <= s[1..][i..];
        assert s[1..][i..] == s[i + 1..];
      }
      if exists i :: 0 <= i <= |s| && t <= s[i..] {
        var i :| 0 <= i <= |s| && t <= s[i..];
        assert i != 0;
        assert s[1..][i - 1..] == s[i..];
      }
    }
  }

  /** The per-card test: lowercased id includes the lowercased filter text. */
  function Matches(c: Card, filter: string): (m: bool)
    ensures m <==> exists i :: 0 <= i <= |c.id| && Lower(filter) <= Lower(c.id)[i..]
  {
    IncludesAt(Lower(c.id), Lower(filter));
    Includes(Lower(c.id), Lower(filter))
  }

  /** The `Array.prototype.filter` call: the cards that match, in order. */
  function FilterById(cards: seq<Card>, filter: string): (r: seq<Card>)
    ensures |r| <= |cards|
    ensures forall c :: c in r ==> c in cards && Matches(c, filter)
    decreases |cards|
  {
    if cards == [] then []
    else (if Matches(cards[0], filter) then [cards[0]] else []) + FilterById(cards[1..], filter)
  }

  /** The memoised `filteredCreditCards`: with an empty filter, or before the
      window exists (`null`), the window itself; otherwise the window filtered. */
  function Visible(window: Option<seq<Card>>, filter: string): (r: Option<seq<Card>>)
    ensures r.None? <==> window.None?
    ensures filter == "" ==> r == window
    // the empty-filter shortcut agrees with filtering by the empty string
    ensures window.Some? ==> r == Some(FilterById(window.value, filter))
  {
    if window.None? then window
    else if filter == "" then
      FilterByEmpty(window.value);
      window
    else Some(FilterById(window.value, filter))
  }

  /** Every text includes the empty text, so filtering by "" keeps everything. */
  lemma {:induction false} FilterByEmpty(cards: seq<Card>)
    ensures FilterById(cards, "") == cards
    decreases |cards|
  {
    if cards != [] {
      assert Lower("") == "";
      assert Matches(cards[0], "");
      FilterByEmpty(cards[1..]);
      assert cards == [cards[0]] + cards[1..];
    }
  }

  /** Order-preserving subsequence: a can be obtained from b by deleting elements. */
  predicate IsSubsequence<T(==)>(a: seq<T>, b: seq<T>)
    decreases |b|
  {
    a == [] || (b != [] && ((a[0] == b[0] && IsSubsequence(a[1..], b[1..])) || IsSubsequence(a, b[1..])))
  }

  /** The filter keeps the window's order: its result is a subsequence of the window. */
  lemma {:induction false} FilterIsSubsequence(cards: seq<Card>, filter: string)
    ensures IsSubsequence(FilterById(cards, filter), cards)
    decreases |cards|
  {
    if cards != [] {
      FilterIsSubsequence(cards[1..], filter);
      var r := FilterById(cards, filter);
      if Matches(cards[0], filter) {
        assert r == [cards[0]] + FilterById(cards[1..], filter);
        assert r[0] == cards[0] && r[1..] == FilterById(cards[1..], filter);
      } else {
        assert r == FilterById(cards[1..], filter);
      }
    }
  }

  /** Exactly the matching cards are kept, each as many times as it occurs
      in the window; nothing else. */
  lemma {:induction false} FilterCounts(cards: seq<Card>, filter: string, c: Card)
    ensures multiset(FilterById(cards, filter))[c] == if Matches(c, filter) then multiset(cards)[c] else 0
    decreases |cards|
  {
    if cards != [] {
      FilterCounts(cards[1..], filter, c);
      assert cards == [cards[0]] + cards[1..];
      assert multiset(cards) == multiset([cards[0]]) + multiset(cards[1..]);
    }
  }

  /** A window card is shown if and only if it matches. */
  lemma FilterMembership(cards: seq<Card>, filter: string, c: Card)
    ensures c in FilterById(cards, filter) <==> c in cards && Matches(c, filter)
  {
    FilterCounts(cards, filter, c);
  }

  lemma {:induction false} FilterKeepsAllMatching(cards: seq<Card>, filter: string)
    requires forall c :: c in cards ==> Matches(c, filter)
    ensures FilterById(cards, filter) == cards
    decreases |cards|
  {
    if cards != [] {
      FilterKeepsAllMatching(cards[1..], filter);
      assert cards == [cards[0]] + cards[1..];
    }
  }

  /** Filtering the filtered window again changes nothing. */
  lemma FilterIdempotent(cards: seq<Card>, filter: string)
    ensures FilterById(FilterById(cards, filter), filter) == FilterById(cards, filter)
  {
    FilterKeepsAllMatching(FilterById(cards, filter), filter);
  }

  lemma {:induction false} FilterAppend(a: seq<Card>, b: seq<Card>, filter: string)
    ensures FilterById(a + b, filter) == FilterById(a, filter) + FilterById(b, filter)
    decreases |a|
  {
    if a != [] {
      assert (a + b)[1..] == a[1..] + b;
      FilterAppend(a[1..], b, filter);
    } else {
      assert a + b == b;
    }
  }

  /** Filtering narrows within the revealed prefix: the filtered window is a
      prefix of what filtering the whole list would give, so matches beyond
      the window stay out of view until the window grows. */
  lemma FilterOfPrefix(all: seq<Card>, n: nat, filter: string)
    requires n <= |all|
    ensures FilterById(all[..n], filter) <= FilterById(all, filter)
  {
    assert all == all[..n] + all[n..];
    FilterAppend(all[..n], all[n..], filter);
  }

  /** The comparison is case-insensitive: two filter texts that lowercase
      alike select the same cards. */
  lemma {:induction false} FilterIgnoresCase(cards: seq<Card>, f1: string, f2: string)
    requires Lower(f1) == Lower(f2)
    ensures FilterById(cards, f1) == FilterById(cards, f2)
    decreases |cards|
  {
    if cards != [] {
      FilterIgnoresCase(cards[1..], f1, f2);
    }
  }

  /** A card's own id, typed in any letter case, finds that card. */
  lemma OwnIdMatches(c: Card, typed: string)
    requires Lower(typed) == Lower(c.id)
    ensures Matches(c, typed)
  {
  }
}
