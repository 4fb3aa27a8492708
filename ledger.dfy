/** The pay-per-view unlock window, as the different parts of the code
    decide it. The creator's post listing (backend/routes/creator.js and
    creator_v1.1.js) counts a purchase as expired once its timestamp is
    strictly earlier than `now - 7 days`; the `/mine` listing and the
    purchases page keep a purchase only while `expires_at > now`. The two
    rules disagree at exactly one instant, `purchase time + 7 days`. */
module Ledger {
  import opened Common
  import opened Tables

  /** creator.js: `new Date(purchasedAt) < new Date(Date.now() - 7 days)`. */
  predicate ExpiredByAge(at: Millis, now: Millis) {
    at < now - WEEK_MS
  }

  /** purchases.js `/mine`: `expires_at > NOW()`. */
  predicate Live(expiresAt: Millis, now: Millis) {
    expiresAt > now
  }

  /** The first purchase row for a post, as `purchases.find(...)` returns it:
      the earliest row in table order, not the most recent purchase. */
  function FirstPurchaseOf(purchases: seq<Purchase>, post: Id): (r: Option<Purchase>)
    ensures r.Some? ==> r.value in purchases && r.value.post == post
    ensures r.None? <==> forall p :: p in purchases ==> p.post != post
  {
    if purchases == [] then None
    else if purchases[0].post == post then Some(purchases[0])
    else FirstPurchaseOf(purchases[1..], post)
  }

  /** The row found is the earliest matching row. */
  lemma {:induction false} FirstPurchaseIsEarliest(purchases: seq<Purchase>, post: Id, i: nat)
    requires i < |purchases| && purchases[i].post == post
    requires forall j :: 0 <= j < i ==> purchases[j].post != post
    ensures FirstPurchaseOf(purchases, post) == Some(purchases[i])
  {
    if i > 0 {
      FirstPurchaseIsEarliest(purchases[1..], post, i - 1);
    }
  }

  /** The listing's rule keeps a purchase unlocked up to and including
      at + 7 days. */
  lemma UnlockedByAgeIff(at: Millis, now: Millis)
    ensures !ExpiredByAge(at, now) <==> now <= at + WEEK_MS
  {
  }

  /** The two rules agree at every instant except `at + 7 days`, where the
      listing still unlocks and `/mine` already drops the purchase. */
  lemma RulesDisagreeOnlyAtBoundary(at: Millis, now: Millis)
    ensures (!ExpiredByAge(at, now) == Live(at + WEEK_MS, now)) <==> now != at + WEEK_MS
  {
  }

  /** One second before the window closes a purchase is unlocked under both
      rules; one second after, it is expired under both. */
  lemma OneSecondAroundTheWindow(at: Millis)
    ensures !ExpiredByAge(at, at + WEEK_MS - SECOND_MS) && Live(at + WEEK_MS, at + WEEK_MS - SECOND_MS)
    ensures ExpiredByAge(at, at + WEEK_MS + SECOND_MS) && !Live(at + WEEK_MS, at + WEEK_MS + SECOND_MS)
  {
  }
}
