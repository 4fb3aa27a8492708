/** frontend/app/purchases/page.js: the "My Purchases" page. It turns the
    `/mine` entries into a map from post id to unlock state and shows each
    purchased post's content only when that map says it is unlocked. */
module PurchasesPage {
  import opened Common
  import opened Ledger
  import Purchases

  /** `Math.max(0, expiresAt - Date.now())`, with `expiresAt` rebuilt as
      `purchased_at + 7 days`. */
  function Remaining(item: Purchases.Unlock, now: Millis): nat {
    var left := item.purchasedAt + WEEK_MS - now;
    if left > 0 then left else 0
  }

  function DaysLeft(item: Purchases.Unlock, now: Millis): nat {
    CeilDiv(Remaining(item, now), DAY_MS)
  }

  /** No days are left exactly when the rebuilt expiry has passed. */
  lemma DaysLeftZeroIff(item: Purchases.Unlock, now: Millis)
    ensures DaysLeft(item, now) == 0 <==> now >= item.purchasedAt + WEEK_MS
  {
    CeilDivBounds(Remaining(item, now), DAY_MS);
  }

  /** Inside the window the count runs from 7 down to 1; it is the number of
      started days before expiry. */
  lemma DaysLeftInWindow(item: Purchases.Unlock, now: Millis)
    requires item.purchasedAt <= now < item.purchasedAt + WEEK_MS
    ensures 1 <= DaysLeft(item, now) <= 7
    ensures (DaysLeft(item, now) - 1) * DAY_MS < item.purchasedAt + WEEK_MS - now
                                              <= DaysLeft(item, now) * DAY_MS
  {
    var a := Remaining(item, now);
    CeilDivBounds(a, DAY_MS);
    assert a <= 7 * DAY_MS;
  }

  /** `{ unlocked: daysLeft > 0, expires_in: daysLeft }`. */
  datatype UnlockInfo = UnlockInfo(unlocked: bool, expiresIn: nat)

  function Info(item: Purchases.Unlock, now: Millis): UnlockInfo {
    var days := DaysLeft(item, now);
    UnlockInfo(days > 0, days)
  }

  /** The map the loop builds: entries in order, a later entry for the same
      post overwriting an earlier one. */
  function UnlockMapOf(items: seq<Purchases.Unlock>, now: Millis): map<Id, UnlockInfo> {
    if items == [] then map[]
    else
      var last := items[|items| - 1];
      UnlockMapOf(items[..|items| - 1], now)[last.postId := Info(last, now)]
  }

  /** The `for (const item of data.purchased)` loop. */
  method BuildUnlockMap(items: seq<Purchases.Unlock>, now: Millis) returns (m: map<Id, UnlockInfo>)
    ensures m == UnlockMapOf(items, now)
  {
    m := map[];
    for i := 0 to |items|
      invariant m == UnlockMapOf(items[..i], now)
    {
      assert items[..i + 1][..i] == items[..i];
      m := m[items[i].postId := Info(items[i], now)];
    }
    assert items[..|items|] == items;
  }

  /** The map has a key for each listed post, and the value is the one the
      last entry for that post computes. */
  lemma {:induction false} UnlockMapLastWins(items: seq<Purchases.Unlock>, now: Millis, i: nat)
    requires i < |items|
    requires forall j :: i < j < |items| ==> items[j].postId != items[i].postId
    ensures items[i].postId in UnlockMapOf(items, now)
    ensures UnlockMapOf(items, now)[items[i].postId] == Info(items[i], now)
  {
    if i < |items| - 1 {
      UnlockMapLastWins(items[..|items| - 1], now, i);
    }
  }

  /** The map has a key for exactly the listed posts. */
  lemma {:induction false} UnlockMapKeys(items: seq<Purchases.Unlock>, now: Millis)
    ensures UnlockMapOf(items, now).Keys == set it | it in items :: it.postId
  {
    if items != [] {
      var init := items[..|items| - 1];
      UnlockMapKeys(init, now);
      assert items == init + [items[|items| - 1]];
      assert forall it :: it in items <==> it in init || it == items[|items| - 1];
    }
  }

  /** Each value is the one some entry of that post computes. */
  lemma {:induction false} UnlockMapValues(items: seq<Purchases.Unlock>, now: Millis)
    ensures forall k :: k in UnlockMapOf(items, now) ==>
      exists it :: it in items && it.postId == k && UnlockMapOf(items, now)[k] == Info(it, now)
  {
    if items != [] {
      var init := items[..|items| - 1];
      UnlockMapValues(init, now);
      assert items == init + [items[|items| - 1]];
      assert forall it :: it in init ==> it in items;
    }
  }

  /** The second effect: a failed `/mine` request leaves the map empty. */
  method LoadUnlocks(response: Option<seq<Purchases.Unlock>>, now: Millis) returns (m: map<Id, UnlockInfo>)
    ensures response.None? ==> m == map[]
    ensures response.Some? ==> m == UnlockMapOf(response.value, now)
  {
    if response.None? {
      return map[];
    }
    m := BuildUnlockMap(response.value, now);
  }

  /** What a purchased post's card shows below its title. */
  datatype Body = Shown(content: string, note: string) | Locked

  function DaysNote(days: nat): string {
    "Unlocked • " + NatStr(days) + " day" + (if days != 1 then "s" else "") + " left"
  }

  /** `unlockMap[post.id] || {}`, then the content or the lock message. */
  function Render(post: Purchases.Listed, m: map<Id, UnlockInfo>): Body {
    if post.id in m && m[post.id].unlocked then Shown(post.content, DaysNote(m[post.id].expiresIn))
    else Locked
  }

  /** When the unlocks could not be loaded every post is locked. */
  lemma FailedLoadLocksEverything(post: Purchases.Listed)
    ensures Render(post, map[]) == Locked
  {
  }

  /** Every `/mine` entry read at the server's clock is unlocked. */
  lemma MineEntryUnlocked(purchases: seq<Tables.Purchase>, buyer: Id, now: Millis, it: Purchases.Unlock)
    requires it in Purchases.Mine(purchases, buyer, now)
    ensures Info(it, now).unlocked
  {
    var items := Purchases.Mine(purchases, buyer, now);
    var i :| 0 <= i < |items| && items[i] == it;
    DaysLeftZeroIff(it, now);
  }

  /** Every `/mine` entry stands for a live purchase of the caller. */
  lemma MineEntryLive(purchases: seq<Tables.Purchase>, buyer: Id, now: Millis, it: Purchases.Unlock)
    requires it in Purchases.Mine(purchases, buyer, now)
    ensures exists p :: p in purchases && p.buyer == buyer && p.post == it.postId &&
              p.expiresAt.Some? && Live(p.expiresAt.value, now)
  {
    var items := Purchases.Mine(purchases, buyer, now);
    var i :| 0 <= i < |items| && items[i] == it;
  }

  /** A post has an entry in the map built from `/mine` exactly when the
      caller holds a live purchase of it. */
  lemma MineKeysAreLivePurchases(purchases: seq<Tables.Purchase>, buyer: Id, post: Id, now: Millis)
    ensures post in UnlockMapOf(Purchases.Mine(purchases, buyer, now), now)
        <==> exists p :: p in purchases && p.buyer == buyer && p.post == post &&
               p.expiresAt.Some? && Live(p.expiresAt.value, now)
  {
    var items := Purchases.Mine(purchases, buyer, now);
    UnlockMapKeys(items, now);
    if post in UnlockMapOf(items, now) {
      var it :| it in items && it.postId == post;
      MineEntryLive(purchases, buyer, now, it);
    }
    if exists p :: p in purchases && p.buyer == buyer && p.post == post &&
         p.expiresAt.Some? && Live(p.expiresAt.value, now) {
      var p :| p in purchases && p.buyer == buyer && p.post == post &&
        p.expiresAt.Some? && Live(p.expiresAt.value, now);
      Purchases.MineComplete(purchases, buyer, now, p);
      var it := Purchases.Unlock(p.post, p.expiresAt.value - WEEK_MS);
      assert it in items && it.postId == post;
    }
  }

  /** End to end, with the server and the client reading the same clock: a
      purchased post's content shows exactly when the caller holds a purchase
      of it whose `expires_at` is set and still ahead. */
  lemma ShownIffLivePurchase(purchases: seq<Tables.Purchase>, buyer: Id, post: Purchases.Listed, now: Millis)
    ensures Render(post, UnlockMapOf(Purchases.Mine(purchases, buyer, now), now)).Shown?
        <==> exists p :: p in purchases && p.buyer == buyer && p.post == post.id &&
               p.expiresAt.Some? && Live(p.expiresAt.value, now)
  {
    var items := Purchases.Mine(purchases, buyer, now);
    var m := UnlockMapOf(items, now);
    MineKeysAreLivePurchases(purchases, buyer, post.id, now);
    if post.id in m {
      UnlockMapValues(items, now);
      var it :| it in items && it.postId == post.id && m[post.id] == Info(it, now);
      MineEntryUnlocked(purchases, buyer, now, it);
    }
  }
}
