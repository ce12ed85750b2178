/**
 * The ordered card list of the app (`state.flashcards`) and the list
 * operations behind deleting and saving a card.
 */
module Deck {
  import opened Wrappers

  /** One flashcard. `id` is the JavaScript number the card was created
      with; nothing in the app makes it unique. */
  datatype Card = Card(id: int, question: string, answer: string)

  predicate HasId(cards: seq<Card>, id: int) {
    exists i :: 0 <= i < |cards| && cards[i].id == id
  }

  /** No two cards share an id. */
  predicate UniqueIds(cards: seq<Card>) {
    forall i, j :: 0 <= i < j < |cards| ==> cards[i].id != cards[j].id
  }

  /** A card with the given id, if there is one, looked up from the front
      of the list; with unique ids it is the only one. */
  function Find(cards: seq<Card>, id: int): (r: Option<Card>)
    ensures r.None? <==> !HasId(cards, id)
    ensures r.Some? ==> r.value in cards && r.value.id == id
  {
    if cards == [] then None
    else if cards[0].id == id then Some(cards[0])
    else
      var r := Find(cards[1..], id);
      assert HasId(cards[1..], id) ==> HasId(cards, id) by {
        if HasId(cards[1..], id) {
          var i :| 0 <= i < |cards[1..]| && cards[1..][i].id == id;
          assert cards[i + 1].id == id;
        }
      }
      r
  }

  /** The cards of `cards` whose id differs from `id`, in their order. */
  function Remove(cards: seq<Card>, id: int): (r: seq<Card>)
    ensures forall i :: 0 <= i < |r| ==> r[i].id != id
    ensures |r| <= |cards|
  {
    if cards == [] then []
    else (if cards[0].id == id then [] else [cards[0]]) + Remove(cards[1..], id)
  }

  /** Exactly the cards with another id survive a delete. */
  lemma {:induction false} RemoveMembers(cards: seq<Card>, id: int)
    ensures forall c :: c in Remove(cards, id) <==> c in cards && c.id != id
    decreases |cards|
  {
    if cards != [] {
      RemoveMembers(cards[1..], id);
      assert cards == [cards[0]] + cards[1..];
    }
  }

  /** Filtering distributes over concatenation: the kept cards stay in their
      original order. */
  lemma {:induction false} RemoveAppend(a: seq<Card>, b: seq<Card>, id: int)
    ensures Remove(a + b, id) == Remove(a, id) + Remove(b, id)
    decreases |a|
  {
    if a == [] {
      assert a + b == b;
    } else {
      assert (a + b)[1..] == a[1..] + b;
      RemoveAppend(a[1..], b, id);
    }
  }

  /** Removing an id nobody has changes nothing. */
  lemma {:induction false} RemoveAbsent(cards: seq<Card>, id: int)
    requires !HasId(cards, id)
    ensures Remove(cards, id) == cards
    decreases |cards|
  {
    if cards != [] {
      assert cards[0].id != id;
      forall i | 0 <= i < |cards| - 1
        ensures cards[1..][i].id != id
      {
        assert cards[1..][i] == cards[i + 1];
      }
      RemoveAbsent(cards[1..], id);
      assert [cards[0]] + cards[1..] == cards;
    }
  }

  lemma RemoveBetween(pre: seq<Card>, c: Card, post: seq<Card>)
    requires !HasId(pre, c.id) && !HasId(post, c.id)
    ensures Remove(pre + [c] + post, c.id) == pre + post
  {
    RemoveAbsent(pre, c.id);
    RemoveAbsent(post, c.id);
    assert Remove([c], c.id) == [] by {
      assert [c][1..] == [];
    }
    calc {
      Remove(pre + [c] + post, c.id);
      { RemoveAppend(pre + [c], post, c.id); }
      Remove(pre + [c], c.id) + Remove(post, c.id);
      { RemoveAppend(pre, [c], c.id); }
      Remove(pre, c.id) + Remove([c], c.id) + Remove(post, c.id);
      pre + [] + post;
    }
    assert pre + [] + post == pre + post;
  }

  lemma SplitAt<T>(s: seq<T>, k: int)
    requires 0 <= k < |s|
    ensures s == s[..k] + [s[k]] + s[k + 1..]
  {
  }

  /** With unique ids, deleting the id of the card at `k` removes exactly
      that card and keeps the others in order. */
  lemma RemoveUnique(cards: seq<Card>, k: int)
    requires UniqueIds(cards) && 0 <= k < |cards|
    ensures Remove(cards, cards[k].id) == cards[..k] + cards[k + 1..]
  {
    var c := cards[k];
    var pre, post := cards[..k], cards[k + 1..];
    forall i | 0 <= i < |pre|
      ensures pre[i].id != c.id
    {
      assert pre[i] == cards[i];
    }
    forall i | 0 <= i < |post|
      ensures post[i].id != c.id
    {
      assert post[i] == cards[k + 1 + i];
    }
    SplitAt(cards, k);
    RemoveBetween(pre, c, post);
  }

  /** Deleting twice is deleting once. */
  lemma RemoveIdempotent(cards: seq<Card>, id: int)
    ensures Remove(Remove(cards, id), id) == Remove(cards, id)
  {
    var r := Remove(cards, id);
    RemoveAbsent(r, id);
  }

  lemma UniqueIdsCons(c: Card, rest: seq<Card>)
    ensures UniqueIds([c] + rest) <==> !HasId(rest, c.id) && UniqueIds(rest)
  {
    var s := [c] + rest;
    if UniqueIds(s) {
      forall i | 0 <= i < |rest|
        ensures rest[i].id != c.id
      {
        assert s[0] == c && s[i + 1] == rest[i];
      }
      forall i, j | 0 <= i < j < |rest|
        ensures rest[i].id != rest[j].id
      {
        assert s[i + 1] == rest[i] && s[j + 1] == rest[j];
      }
    }
    if !HasId(rest, c.id) && UniqueIds(rest) {
      forall i, j | 0 <= i < j < |s|
        ensures s[i].id != s[j].id
      {
        if i == 0 {
          assert s[j] == rest[j - 1];
        } else {
          assert s[i] == rest[i - 1] && s[j] == rest[j - 1];
        }
      }
    }
  }

  /** Deleting cards keeps ids unique. */
  lemma {:induction false} RemoveKeepsUnique(cards: seq<Card>, id: int)
    requires UniqueIds(cards)
    ensures UniqueIds(Remove(cards, id))
    decreases |cards|
  {
    if cards != [] {
      var c, rest := cards[0], cards[1..];
      assert cards == [c] + rest;
      UniqueIdsCons(c, rest);
      RemoveKeepsUnique(rest, id);
      if c.id != id {
        var r := Remove(rest, id);
        RemoveMembers(rest, id);
        forall i | 0 <= i < |r|
          ensures r[i].id != c.id
        {
          assert r[i] in r;
          var j :| 0 <= j < |rest| && rest[j] == r[i];
        }
        UniqueIdsCons(c, r);
      } else {
        assert Remove(cards, id) == [] + Remove(rest, id);
      }
    }
  }

  /** Appending a card with a fresh id keeps ids unique. */
  lemma AppendFreshKeepsUnique(cards: seq<Card>, c: Card)
    requires UniqueIds(cards) && !HasId(cards, c.id)
    ensures UniqueIds(cards + [c])
  {
    var r := cards + [c];
    forall i, j | 0 <= i < j < |r|
      ensures r[i].id != r[j].id
    {
      assert r[i] == cards[i];
      if j < |cards| {
        assert r[j] == cards[j];
      }
    }
  }

  /** Every card with id `id` gets the new texts and keeps its id; every
      other card is kept as it is, in place. */
  function Replace(cards: seq<Card>, id: int, question: string, answer: string): (r: seq<Card>)
    ensures |r| == |cards|
    ensures forall i :: 0 <= i < |cards| ==>
      r[i] == if cards[i].id == id then Card(id, question, answer) else cards[i]
  {
    if cards == [] then []
    else
      [if cards[0].id == id then Card(id, question, answer) else cards[0]]
      + Replace(cards[1..], id, question, answer)
  }

  /** Replacing text never touches ids, so unique ids stay unique. */
  lemma ReplaceKeepsUnique(cards: seq<Card>, id: int, question: string, answer: string)
    requires UniqueIds(cards)
    ensures UniqueIds(Replace(cards, id, question, answer))
  {
    var r := Replace(cards, id, question, answer);
    forall i, j | 0 <= i < j < |r|
      ensures r[i].id != r[j].id
    {
      assert r[i].id == cards[i].id && r[j].id == cards[j].id;
    }
  }

  /** Reading a card back after replacing it gives the new text. */
  lemma {:induction false} ReplaceThenFind(cards: seq<Card>, id: int, question: string, answer: string)
    requires HasId(cards, id)
    ensures Find(Replace(cards, id, question, answer), id) == Some(Card(id, question, answer))
    decreases |cards|
  {
    var r := Replace(cards, id, question, answer);
    if cards[0].id != id {
      var i :| 0 <= i < |cards| && cards[i].id == id;
      assert cards[1..][i - 1].id == id;
      assert r[1..] == Replace(cards[1..], id, question, answer);
      ReplaceThenFind(cards[1..], id, question, answer);
    }
  }

  /** Replacing one id does not change what another id reads as. */
  lemma ReplaceKeepsOthers(cards: seq<Card>, id: int, other: int, question: string, answer: string)
    requires other != id
    ensures Find(Replace(cards, id, question, answer), other) == Find(cards, other)
  {
    var r := Replace(cards, id, question, answer);
    forall i | 0 <= i < |r|
      ensures r[i].id == other <==> cards[i].id == other
    {
    }
    FindAgree(cards, r, other);
  }

  /** Two lists whose cards carrying `id` sit at the same places and agree
      find the same card for `id`. */
  lemma {:induction false} FindAgree(a: seq<Card>, b: seq<Card>, id: int)
    requires |a| == |b|
    requires forall i :: 0 <= i < |a| ==> (a[i].id == id <==> b[i].id == id)
    requires forall i :: 0 <= i < |a| && a[i].id == id ==> a[i] == b[i]
    ensures Find(a, id) == Find(b, id)
    decreases |a|
  {
    if a != [] {
      assert a[0].id == id <==> b[0].id == id;
      if a[0].id != id {
        FindAgree(a[1..], b[1..], id);
      }
    }
  }
}
