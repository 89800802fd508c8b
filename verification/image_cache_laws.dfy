/** What eviction and storing leave in the tables, image by image. */
module ImageCacheLaws {
  import opened ImageLoader

  /** An evicted image is gone and its entry says so; every other one keeps its pixels, its stamp and its entry. */
  lemma EvictionMarks(before: Cache, after: Cache, gone: set<Url>, url: Url)
    requires Evicted(before, after, gone)
    ensures url in after.inner <==> url in before.inner
    ensures url in gone ==> url !in after.decoded && url !in after.stamps
    ensures url in gone && url in before.inner ==>
              var (was, now) := (before.inner[url], after.inner[url]);
              !now.loaded && now.width == was.width && now.height == was.height
    ensures url !in gone ==>
              && (url in after.decoded <==> url in before.decoded) && (url in after.stamps <==> url in before.stamps)
              && (url in before.decoded ==> after.decoded[url] == before.decoded[url])
              && (url in before.stamps ==> after.stamps[url] == before.stamps[url])
              && (url in before.inner ==> after.inner[url] == before.inner[url])
  {
  }

  /**
   * An image just stored is in the cache, marked as loaded with its width and height and stamped, whatever is
   * pruned behind it; every other image is as it was, and no entry is new.
   */
  lemma StoringShows(mid: Cache, after: Cache, url: Url, data: ImageData, now: nat, dropped: set<Url>)
    requires Pruned(Placed(mid, url, data, now), after, dropped)
    ensures url in after.decoded && after.decoded[url] == data && url in after.stamps && after.stamps[url] == now
    ensures url in after.inner && after.inner[url].loaded
            && after.inner[url].width == data.width && after.inner[url].height == data.height
    ensures forall other <- after.inner :: other != url ==> other in mid.inner && after.inner[other] == mid.inner[other]
    ensures forall other: Url :: other != url ==>
              && (other in after.decoded <==> other in mid.decoded)
              && (other in mid.decoded ==> after.decoded[other] == mid.decoded[other])
    ensures after.size == mid.size + data.size
  {
    var placed := Placed(mid, url, data, now);
    assert url in placed.decoded && url !in Metadata(placed);
  }

  /** The images evicted as stale are exactly those last used before the age began. */
  lemma StaleAreTooOld(c: Cache, after: Cache, now: nat, maxAge: nat, url: Url)
    requires Evicted(c, after, Stale(c, now, maxAge)) && url in c.decoded && url in c.stamps
    ensures url in after.decoded <==> c.stamps[url] + maxAge >= now
  {
  }

  /**
   * Pruning drops only entries without an image, as many as there are above a thousand: entries never used first, and
   * then those used longest ago. Whatever is kept was used, and no earlier than anything dropped. Stamps go with their
   * entries, and images stay.
   */
  lemma PruningDropsTheColdest(before: Cache, after: Cache, gone: set<Url>)
    requires Pruned(before, after, gone)
    ensures |gone| == if |before.inner| > 1_000 then |before.inner| - 1_000 else 0
    ensures after.inner.Keys == before.inner.Keys - gone && gone !! before.decoded.Keys
    ensures after.decoded == before.decoded && after.size == before.size
    ensures forall g: Url, k: Url :: g in gone && k in after.inner && k !in after.decoded && g in before.stamps ==>
              k in before.stamps && before.stamps[g] <= before.stamps[k]
    ensures forall u: Url :: u in after.stamps <==> u in before.stamps && (u in after.inner || u in after.decoded)
  {
    forall g: Url, k: Url | g in gone && k in after.inner && k !in after.decoded && g in before.stamps
      ensures k in before.stamps && before.stamps[g] <= before.stamps[k]
    {
      assert k in Metadata(before) - gone;
      assert Colder(before.stamps, g, k);
    }
  }
}
