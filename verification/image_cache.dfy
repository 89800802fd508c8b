/** The LRU image cache: three tables, a size counter and an entry counter kept in step. */
module ImageLoader {
  import opened MachineInts
  import opened MapSums
  import opened Text
  import opened Wrappers

  const MAX_DECODED_IMAGES := 100
  const MAX_METADATA_ENTRIES := 1000

  type Url = string

  /** `size` is the number of pixel bytes. */
  datatype ImageData = ImageData(size: nat, width: nat, height: nat)

  datatype Image = Image(width: nat, height: nat, loaded: bool)

  /** A snapshot of the cache's fields; access stamps are readings of a logical clock. */
  datatype Cache = Cache(
    inner: map<Url, Image>, decoded: map<Url, ImageData>, stamps: map<Url, nat>, capacity: nat, size: nat, count: nat)

  const SIZE_OF := (data: ImageData) => data.size

  // ---- What every operation keeps -------------------------------------------------------------

  /** The counters match the tables, `extra` entries being counted ahead, and every decoded image is known and stamped. */
  ghost predicate Books(c: Cache, extra: nat) {
    && c.size == Sum(c.decoded, SIZE_OF)
    && c.count == |c.decoded| + extra
    && c.decoded.Keys <= c.inner.Keys
    && c.decoded.Keys <= c.stamps.Keys <= c.inner.Keys
  }

  ghost predicate Sound(c: Cache) {
    && Books(c, 0)
    && (c.size <= c.capacity || |c.decoded| <= 1)
    && |c.decoded| <= MAX_DECODED_IMAGES + 1
    && |c.inner| <= MAX_METADATA_ENTRIES
  }

  lemma SizeWithout(m: map<Url, ImageData>, url: Url)
    requires url in m
    ensures Sum(m, SIZE_OF) == m[url].size + Sum(m - {url}, SIZE_OF)
    ensures |m - {url}| == |m| - 1
  {
    SumFrom(m, SIZE_OF, url);
    assert (m - {url}).Keys == m.Keys - {url};
  }

  lemma SizeWith(m: map<Url, ImageData>, url: Url, data: ImageData)
    requires url !in m
    ensures Sum(m[url := data], SIZE_OF) == data.size + Sum(m, SIZE_OF)
    ensures |m[url := data]| == |m| + 1
  {
    var grown := m[url := data];
    assert grown[url] == data && grown - {url} == m;
    SizeWithout(grown, url);
  }

  // ---- Eviction ---------------------------------------------------------------------------------

  predicate IsLru(c: Cache, url: Url) {
    url in c.decoded && url in c.stamps
    && forall other <- c.decoded :: other in c.stamps ==> c.stamps[url] <= c.stamps[other]
  }

  function Unloaded(inner: map<Url, Image>, gone: set<Url>): (m: map<Url, Image>) {
    map u | u in inner :: if u in gone then inner[u].(loaded := false) else inner[u]
  }

  function Evict(c: Cache, url: Url): (d: Cache) {
    Cache(Unloaded(c.inner, {url}), c.decoded - {url}, c.stamps - {url}, c.capacity,
          if url in c.decoded then SaturatingSub(c.size, c.decoded[url].size) else c.size,
          if url in c.decoded then SaturatingSub(c.count, 1) else c.count)
  }

  lemma EvictKeepsBooks(c: Cache, url: Url, extra: nat)
    requires Books(c, extra) && url in c.decoded
    ensures Books(Evict(c, url), extra)
    ensures Evict(c, url).size == c.size - c.decoded[url].size && Evict(c, url).count == c.count - 1
    ensures |Evict(c, url).decoded| == |c.decoded| - 1
  {
    SizeWithout(c.decoded, url);
  }

  /** `after` is `before` with the images in `gone` evicted. */
  predicate Evicted(before: Cache, after: Cache, gone: set<Url>) {
    && gone <= before.decoded.Keys
    && after.decoded == before.decoded - gone && after.stamps == before.stamps - gone
    && after.inner == Unloaded(before.inner, gone) && after.capacity == before.capacity
  }

  /** None of those kept was used before one of those evicted. */
  predicate OldestFirst(before: Cache, gone: set<Url>) {
    && before.decoded.Keys <= before.stamps.Keys
    && forall g <- gone, k <- before.decoded.Keys - gone ::
         g in before.stamps && before.stamps[g] <= before.stamps[k]
  }

  lemma EvictOneMore(before: Cache, now: Cache, gone: set<Url>, url: Url, extra: nat)
    requires Books(before, extra) && Evicted(before, now, gone) && OldestFirst(before, gone) && IsLru(now, url)
    ensures Evicted(before, Evict(now, url), gone + {url}) && OldestFirst(before, gone + {url})
  {
    var all := gone + {url};
    assert before.decoded - all == now.decoded - {url};
    assert before.stamps - all == now.stamps - {url};
    assert Unloaded(before.inner, all) == Unloaded(now.inner, {url});
    forall g, k | g in all && k in before.decoded.Keys - all
      ensures g in before.stamps && before.stamps[g] <= before.stamps[k]
    {
      assert k in now.decoded && k in before.decoded.Keys - gone;
    }
  }

  lemma EvictedTwice(a: Cache, b: Cache, c: Cache, first: set<Url>, second: set<Url>)
    requires Evicted(a, b, first) && OldestFirst(a, first) && Evicted(b, c, second) && OldestFirst(b, second)
    ensures Evicted(a, c, first + second) && OldestFirst(a, first + second)
  {
    var all := first + second;
    assert a.decoded - all == b.decoded - second;
    assert a.stamps - all == b.stamps - second;
    assert Unloaded(a.inner, all) == Unloaded(b.inner, second);
    forall g, k | g in all && k in a.decoded.Keys - all ensures g in a.stamps && a.stamps[g] <= a.stamps[k] {
      assert k in b.decoded.Keys - second && k in a.decoded.Keys - first;
      if g !in first {
        assert g in b.stamps && b.stamps[g] <= b.stamps[k];
      }
    }
  }

  lemma EvictNothing(c: Cache, extra: nat)
    requires Books(c, extra)
    ensures Evicted(c, c, {}) && OldestFirst(c, {})
  {
    assert c.decoded - {} == c.decoded && c.stamps - {} == c.stamps && Unloaded(c.inner, {}) == c.inner;
  }

  /** The last one evicted was still needed: with it kept the limit `total` would have been exceeded. */
  predicate OneFewerFails(before: Cache, after: Cache, gone: set<Url>, needed: nat) {
    gone != {} ==> exists g <- gone :: g in before.decoded && after.size + before.decoded[g].size + needed > after.capacity
  }

  /** With anything to evict there is always a least recently used image, so eviction never gets stuck. */
  lemma NeverStuck(c: Cache, extra: nat)
    requires Books(c, extra) && c.decoded != map[]
    ensures !(c.decoded.Keys !! c.stamps.Keys)
  {
    var some :| some in c.decoded;
    assert some in c.decoded.Keys && some in c.stamps.Keys;
  }

  // ---- Metadata -----------------------------------------------------------------------------------

  /** No stamp is coldest. */
  predicate Colder(stamps: map<Url, nat>, a: Url, b: Url) {
    a !in stamps || (b in stamps && stamps[a] <= stamps[b])
  }

  predicate IsColdest(stamps: map<Url, nat>, candidates: set<Url>, url: Url) {
    url in candidates && forall other <- candidates :: Colder(stamps, url, other)
  }

  lemma ColderIsAnOrder(stamps: map<Url, nat>, a: Url, b: Url, c: Url)
    ensures Colder(stamps, a, a) && (Colder(stamps, a, b) || Colder(stamps, b, a))
    ensures Colder(stamps, a, b) && Colder(stamps, b, c) ==> Colder(stamps, a, c)
  {
  }

  function Metadata(c: Cache): (urls: set<Url>) {
    c.inner.Keys - c.decoded.Keys
  }

  /** Metadata without a decoded image, none of it warmer than what stays. */
  predicate ColdestOf(c: Cache, gone: set<Url>) {
    gone <= Metadata(c) && forall g <- gone, k <- Metadata(c) - gone :: Colder(c.stamps, g, k)
  }

  lemma DropOneMore(c: Cache, gone: set<Url>, url: Url)
    requires ColdestOf(c, gone) && IsColdest(c.stamps - gone, Metadata(c) - gone, url)
    ensures ColdestOf(c, gone + {url})
  {
    forall g, k | g in gone + {url} && k in Metadata(c) - (gone + {url}) ensures Colder(c.stamps, g, k) {
      assert k in Metadata(c) - gone;
      if g == url {
        assert Colder(c.stamps - gone, url, k);
      }
    }
  }

  lemma MinusTwice<V>(m: map<Url, V>, dropped: set<Url>, url: Url)
    ensures m - (dropped + {url}) == m - dropped - {url}
  {
  }

  lemma CardStep(a: set<Url>, b: set<Url>, url: Url)
    requires url in a && url !in b
    ensures |a - {url}| == |a| - 1 && |b + {url}| == |b| + 1
  {
  }

  /** `now` is `c` after dropping the coldest metadata, `gone`, with `candidates` left. */
  predicate Dropping(c: Cache, now: Cache, gone: set<Url>, candidates: set<Url>) {
    && ColdestOf(c, gone)
    && candidates == Metadata(c) - gone && now == c.(inner := c.inner - gone, stamps := c.stamps - gone)
  }

  function Forget(c: Cache, url: Url): (d: Cache) {
    c.(inner := c.inner - {url}, stamps := c.stamps - {url})
  }

  lemma DropStep(c: Cache, now: Cache, gone: set<Url>, candidates: set<Url>, url: Url)
    requires Dropping(c, now, gone, candidates) && IsColdest(now.stamps, candidates, url)
    ensures Dropping(c, Forget(now, url), gone + {url}, candidates - {url})
    ensures |gone + {url}| == |gone| + 1
  {
    DropOneMore(c, gone, url);
    MinusTwice(c.inner, gone, url);
    MinusTwice(c.stamps, gone, url);
    SetMinusTwice(Metadata(c), gone, url);
    CardStep(candidates, gone, url);
  }

  lemma DropNothing(c: Cache)
    ensures Dropping(c, c, {}, Metadata(c))
  {
    assert c.inner - {} == c.inner && c.stamps - {} == c.stamps && Metadata(c) - {} == Metadata(c);
  }

  lemma DroppedAll(c: Cache, now: Cache, gone: set<Url>)
    requires Dropping(c, now, gone, {})
    ensures gone == Metadata(c)
  {
    assert forall url <- Metadata(c) :: url !in gone ==> url in Metadata(c) - gone;
  }

  lemma SetMinusTwice(a: set<Url>, dropped: set<Url>, url: Url)
    ensures a - (dropped + {url}) == a - dropped - {url}
  {
  }

  /** Coldest metadata without a decoded image goes, as many entries as there are too many; stamps follow. */
  predicate Pruned(before: Cache, after: Cache, gone: set<Url>) {
    && ColdestOf(before, gone)
    && |gone| == SaturatingSub(|before.inner|, MAX_METADATA_ENTRIES)
    && after.inner == before.inner - gone
    && after.stamps == (map u | u in before.stamps && (u in after.inner || u in after.decoded) :: before.stamps[u])
    && after.decoded == before.decoded && after.capacity == before.capacity
    && after.size == before.size && after.count == before.count
  }

  lemma EnoughMetadata(c: Cache)
    requires c.decoded.Keys <= c.inner.Keys && |c.decoded| <= MAX_METADATA_ENTRIES
    ensures |c.inner| - MAX_METADATA_ENTRIES <= |Metadata(c)|
  {
    CardMinus(c.inner.Keys, c.decoded.Keys);
    assert |c.inner| == |c.inner.Keys| && |c.decoded| == |c.decoded.Keys|;
  }

  lemma RetainAfterDrop(c: Cache, gone: set<Url>)
    requires gone <= Metadata(c)
    ensures var inner, stamps := c.inner - gone, c.stamps - gone;
            (map u | u in stamps && (u in inner || u in c.decoded) :: stamps[u])
            == (map u | u in c.stamps && (u in inner || u in c.decoded) :: c.stamps[u])
  {
  }

  lemma PruneKeepsBooks(before: Cache, after: Cache, gone: set<Url>)
    requires before.size == Sum(before.decoded, SIZE_OF) && before.count == |before.decoded|
    requires before.decoded.Keys <= before.inner.Keys && before.decoded.Keys <= before.stamps.Keys
    requires Pruned(before, after, gone)
    ensures Books(after, 0) && |after.inner| <= MAX_METADATA_ENTRIES
  {
    assert after.inner.Keys == before.inner.Keys - gone;
    CardMinus(before.inner.Keys, gone);
    assert |after.inner| == |after.inner.Keys| && |before.inner| == |before.inner.Keys|;
  }

  lemma CardMinus(a: set<Url>, b: set<Url>)
    requires b <= a
    ensures |a - b| == |a| - |b|
  {
    assert (a - b) + b == a;
  }

  // ---- Storing an image -------------------------------------------------------------------------------

  /** Eviction went no further than the byte limit or the entry limit asked. */
  predicate Needed(before: Cache, after: Cache, gone: set<Url>, needed: nat) {
    gone != {} ==>
      || before.count > MAX_DECODED_IMAGES
      || exists g <- gone :: g in before.decoded && after.size + before.decoded[g].size + needed > after.capacity
  }

  lemma NeededTwice(a: Cache, b: Cache, c: Cache, first: set<Url>, second: set<Url>, needed: nat)
    requires OneFewerFails(a, b, first, needed)
    requires second == {} ==> c == b
    requires second != {} ==> a.count > MAX_DECODED_IMAGES
    ensures Needed(a, c, first + second, needed)
  {
    if second == {} {
      assert first + second == first;
    }
  }

  function Without(c: Cache, url: Url): (d: Cache) {
    if url !in c.decoded then c.(decoded := c.decoded - {url})
    else c.(decoded := c.decoded - {url}, size := SaturatingSub(c.size, c.decoded[url].size),
            count := SaturatingSub(c.count, 1))
  }

  lemma WithoutKeepsBooks(c: Cache, url: Url)
    requires Books(c, 0)
    ensures Books(Without(c, url), 0) && url !in Without(c, url).decoded
  {
    if url in c.decoded {
      SizeWithout(c.decoded, url);
    } else {
      assert c.decoded - {url} == c.decoded;
    }
  }

  function Placed(c: Cache, url: Url, data: ImageData, now: nat): (d: Cache) {
    Cache(c.inner[url := Image(data.width, data.height, true)], c.decoded[url := data], c.stamps[url := now], c.capacity,
          c.size + data.size, c.count)
  }

  lemma PlacedCounts(c: Cache, url: Url, data: ImageData, now: nat)
    requires Books(c, 1) && url !in c.decoded
    ensures var d := Placed(c, url, data, now);
            && d.size == Sum(d.decoded, SIZE_OF) && d.count == |d.decoded| == |c.decoded| + 1
            && d.decoded.Keys <= d.inner.Keys && d.decoded.Keys <= d.stamps.Keys
  {
    SizeWith(c.decoded, url, data);
  }

  /** An image counted before it is stored. */
  function Ahead(c: Cache): (d: Cache) {
    c.(count := c.count + 1)
  }

  lemma BooksAhead(c: Cache)
    requires Books(c, 0)
    ensures Books(Ahead(c), 1)
  {
  }

  lemma PlacedFits(mid: Cache, after: Cache, url: Url, data: ImageData)
    requires Books(after, 0) && |after.inner| <= MAX_METADATA_ENTRIES
    requires mid.size + data.size <= mid.capacity || mid.decoded == map[]
    requires after.size == mid.size + data.size && after.capacity == mid.capacity
    requires after.decoded == mid.decoded[url := data] && url !in mid.decoded && |mid.decoded| <= MAX_DECODED_IMAGES
    ensures Sound(after) && |after.decoded| == |mid.decoded| + 1
    ensures data.size > after.capacity ==> after.decoded == map[url := data]
  {
    assert after.decoded.Keys == mid.decoded.Keys + {url};
    assert |after.decoded| == |after.decoded.Keys| && |mid.decoded| == |mid.decoded.Keys|;
  }

  /** No larger than before, and about the same images. */
  predicate Shrunk(before: Cache, after: Cache) {
    && after.inner.Keys == before.inner.Keys && after.decoded.Keys <= before.decoded.Keys
    && after.size <= before.size && after.capacity == before.capacity
  }

  lemma ShrunkIsSound(before: Cache, after: Cache)
    requires Sound(before) && Shrunk(before, after) && Books(after, 0)
    ensures Sound(after)
  {
    assert |after.inner| == |after.inner.Keys| == |before.inner.Keys| == |before.inner|;
    assert |after.decoded| == |after.decoded.Keys| && |before.decoded| == |before.decoded.Keys|;
    CardMinus(before.decoded.Keys, after.decoded.Keys);
  }

  function Stale(c: Cache, now: nat, maxAge: nat): (urls: set<Url>) {
    set url | url in c.stamps && url in c.decoded && SaturatingSub(now, c.stamps[url]) > maxAge
  }

  lemma StaleIsOldest(c: Cache, now: nat, maxAge: nat)
    requires Books(c, 0)
    ensures OldestFirst(c, Stale(c, now, maxAge))
  {
  }

  /** `c` was `before` and loses the images in `all`, those in `left` still to go. */
  ghost predicate Clearing(before: Cache, c: Cache, all: set<Url>, left: set<Url>) {
    Books(c, 0) && Evicted(before, c, all - left) && Shrunk(before, c) && left <= all <= before.decoded.Keys
  }

  lemma ClearNone(c: Cache, all: set<Url>)
    requires Books(c, 0) && all <= c.decoded.Keys
    ensures Clearing(c, c, all, all)
  {
    EvictNothing(c, 0);
    assert all - all == {};
  }

  lemma ClearOne(before: Cache, c: Cache, all: set<Url>, left: set<Url>, url: Url)
    requires Clearing(before, c, all, left) && url in left
    ensures Clearing(before, Evict(c, url), all, left - {url})
  {
    assert url in before.decoded.Keys - (all - left);
    EvictShrinks(before, c, url);
    EvictAnother(before, c, all - left, url);
    OneLess(all, left, url);
  }

  lemma EvictShrinks(before: Cache, c: Cache, url: Url)
    requires Books(c, 0) && Shrunk(before, c) && url in c.decoded
    ensures Books(Evict(c, url), 0) && Shrunk(before, Evict(c, url))
  {
    EvictKeepsBooks(c, url, 0);
  }

  lemma OneLess(all: set<Url>, left: set<Url>, url: Url)
    requires url in left && left <= all
    ensures all - (left - {url}) == (all - left) + {url}
  {
  }

  lemma ClearedAll(before: Cache, c: Cache, all: set<Url>)
    requires Clearing(before, c, all, {})
    ensures Books(c, 0) && Evicted(before, c, all) && Shrunk(before, c)
  {
    assert all - {} == all;
  }

  lemma EvictAnother(before: Cache, now: Cache, gone: set<Url>, url: Url)
    requires Evicted(before, now, gone) && url in now.decoded
    ensures Evicted(before, Evict(now, url), gone + {url})
  {
    var all := gone + {url};
    assert before.decoded - all == now.decoded - {url};
    assert before.stamps - all == now.stamps - {url};
    assert Unloaded(before.inner, all) == Unloaded(now.inner, {url});
  }

  // ---- What eviction and pruning mean -------------------------------------------------------------------

  /** The image used most recently is the last to go: while it is evicted nothing else is left. */
  lemma MostRecentGoesLast(before: Cache, after: Cache, gone: set<Url>, url: Url)
    requires Evicted(before, after, gone) && OldestFirst(before, gone) && url in before.decoded
    requires forall other <- before.decoded.Keys - {url} :: before.stamps[other] < before.stamps[url]
    ensures url in after.decoded || after.decoded == map[]
  {
    assert forall k <- after.decoded :: k in before.decoded.Keys - gone;
    assert forall k <- after.decoded :: k != url ==> k in before.decoded.Keys - {url};
    if after.decoded != map[] {
      var k :| k in after.decoded;
      assert url !in gone;
    }
  }

  /** The tables with one entry added, before pruning. */
  function Grown(c: Cache, url: Url, img: Image): (d: Cache) {
    c.(inner := c.inner[url := img])
  }

  /** However pruning chooses among equally cold entries, the one just added does not stay. */
  ghost predicate SurelyDropped(c: Cache, url: Url, img: Image) {
    forall after, dropped :: Pruned(Grown(c, url, img), after, dropped) ==> url !in after.inner
  }

  ghost predicate SurelyKept(c: Cache, url: Url, img: Image) {
    forall after, dropped :: Pruned(Grown(c, url, img), after, dropped) ==> url in after.inner
  }

  /** The entry is new and the table is full. */
  predicate NoRoom(c: Cache, url: Url) {
    url !in c.inner && |c.inner| == MAX_METADATA_ENTRIES
  }

  lemma GrownCount(c: Cache, url: Url, img: Image)
    requires Sound(c)
    ensures Grown(c, url, img).inner.Keys == c.inner.Keys + {url}
    ensures SaturatingSub(|Grown(c, url, img).inner|, MAX_METADATA_ENTRIES) == if NoRoom(c, url) then 1 else 0
  {
    var grown := Grown(c, url, img);
    assert grown.inner.Keys == c.inner.Keys + {url};
    assert |c.inner| == |c.inner.Keys| && |grown.inner| == |grown.inner.Keys|;
    assert url in c.inner ==> grown.inner.Keys == c.inner.Keys;
  }

  /** When every other entry without a decoded image has been accessed, the new one is the only coldest. */
  lemma NewcomerGoes(c: Cache, after: Cache, url: Url, img: Image, dropped: set<Url>)
    requires Sound(c) && NoRoom(c, url) && Metadata(c) <= c.stamps.Keys
    requires Pruned(Grown(c, url, img), after, dropped)
    ensures after == c
  {
    GrownCount(c, url, img);
    var grown := Grown(c, url, img);
    assert url in Metadata(grown) && url !in c.stamps;
    assert url in dropped || url in Metadata(grown) - dropped;
    assert forall g <- dropped :: url in dropped || Colder(grown.stamps, g, url);
    assert forall g <- dropped :: g == url || g in Metadata(c);
    var g :| g in dropped;
    assert url in dropped;
    SingleElement(dropped, url);
    assert after.inner == c.inner && after.stamps == c.stamps;
  }

  function PruneBy(c: Cache, gone: set<Url>): (d: Cache) {
    c.(inner := c.inner - gone,
       stamps := map u | u in c.stamps && (u in c.inner - gone || u in c.decoded) :: c.stamps[u])
  }

  /** Any entry without an image that was never accessed may be the one to go. */
  lemma ColdMayGo(c: Cache, url: Url, img: Image, m: Url)
    requires Sound(c) && NoRoom(c, url) && m in Metadata(c) + {url} && m !in c.stamps
    ensures Pruned(Grown(c, url, img), PruneBy(Grown(c, url, img), {m}), {m})
  {
    GrownCount(c, url, img);
  }

  lemma NobodyGoes(c: Cache, url: Url, img: Image)
    requires Sound(c) && !NoRoom(c, url)
    ensures Pruned(Grown(c, url, img), PruneBy(Grown(c, url, img), {}), {})
    ensures SurelyKept(c, url, img) && !SurelyDropped(c, url, img)
  {
    GrownCount(c, url, img);
    var grown := Grown(c, url, img);
    assert Pruned(grown, PruneBy(grown, {}), {});
    assert url in PruneBy(grown, {}).inner;
    forall after, dropped | Pruned(grown, after, dropped) ensures url in after.inner {
      assert dropped == {};
    }
  }

  /**
   * Pruning counts an entry never accessed as the coldest. So adding an entry drops that very entry, on
   * every choice pruning has, if and only if it is new, the table is full and every other entry without a
   * decoded image has been accessed; and it is kept on every choice if and only if it is known or there is
   * room.
   */
  lemma NewcomerIsDropped(c: Cache, url: Url, img: Image)
    requires Sound(c)
    ensures SurelyDropped(c, url, img) <==> NoRoom(c, url) && Metadata(c) <= c.stamps.Keys
    ensures SurelyKept(c, url, img) <==> !NoRoom(c, url)
  {
    var grown := Grown(c, url, img);
    if !NoRoom(c, url) {
      NobodyGoes(c, url, img);
    } else {
      ColdMayGo(c, url, img, url);
      assert url !in PruneBy(grown, {url}).inner;
      if Metadata(c) <= c.stamps.Keys {
        forall after, dropped | Pruned(grown, after, dropped) ensures url !in after.inner {
          NewcomerGoes(c, after, url, img, dropped);
        }
      } else {
        var m :| m in Metadata(c) && m !in c.stamps;
        ColdMayGo(c, url, img, m);
        assert url in PruneBy(grown, {m}).inner;
      }
    }
  }

  /** A full table: 1000 entries, all accessed, none decoded. */
  function FullTable(capacity: nat): (c: Cache) {
    var urls := Tagged("/", MAX_METADATA_ENTRIES);
    Cache(map url | url in urls :: Image(1, 1, false), map[], map url | url in urls :: 0, capacity, 0, 0)
  }

  /** Such a cache never takes a new entry. */
  lemma FullTableDropsNewcomer(capacity: nat, img: Image)
    ensures Sound(FullTable(capacity)) && "new" !in FullTable(capacity).inner
    ensures SurelyDropped(FullTable(capacity), "new", img)
  {
    var c := FullTable(capacity);
    TaggedCount("/", MAX_METADATA_ENTRIES);
    assert c.inner.Keys == Tagged("/", MAX_METADATA_ENTRIES) && |c.inner| == |c.inner.Keys|;
    assert |"new"| == 3 && forall url <- c.inner :: |url| == 2;
    assert Sum(c.decoded, SIZE_OF) == 0;
    NewcomerIsDropped(c, "new", img);
  }

  lemma SingleElement(s: set<Url>, url: Url)
    requires |s| == 1 && url in s
    ensures s == {url}
  {
    assert |s - {url}| == 0;
  }

  // ---- The cache ------------------------------------------------------------------------------------

  class ImageCache {
    var inner: map<Url, Image>
    var decoded: map<Url, ImageData>
    var lastAccess: map<Url, nat>
    var maxCacheSize: nat
    var currentSize: nat
    var decodedCount: nat

    ghost function View(): (c: Cache)
      reads this
    {
      Cache(inner, decoded, lastAccess, maxCacheSize, currentSize, decodedCount)
    }

    ghost predicate Valid()
      reads this
    {
      Sound(View())
    }

    constructor WithCapacity(capacity: nat)
      ensures Valid() && View() == Cache(map[], map[], map[], capacity, 0, 0)
    {
      inner, decoded, lastAccess := map[], map[], map[];
      maxCacheSize, currentSize, decodedCount := capacity, 0, 0;
    }

    /** Finds one whenever a decoded image is stamped, so eviction never gets stuck. */
    method FindLruKey() returns (url: Option<Url>)
      ensures url.Some? ==> IsLru(View(), url.value)
      ensures url.None? ==> decoded.Keys !! lastAccess.Keys
    {
      url := None;
      var left := lastAccess.Keys;
      while left != {}
        invariant left <= lastAccess.Keys
        invariant url.Some? ==> url.value in lastAccess && url.value in decoded
        invariant forall u <- lastAccess.Keys - left ::
          u in decoded ==> url.Some? && lastAccess[url.value] <= lastAccess[u]
      {
        var u :| u in left;
        left := left - {u};
        if u in decoded && (url.None? || lastAccess[u] < lastAccess[url.value]) {
          url := Some(u);
        }
      }
    }

    method EvictEntry(url: Url)
      modifies this
      ensures View() == Evict(old(View()), url)
    {
      if url in decoded {
        currentSize := SaturatingSub(currentSize, decoded[url].size);
        decodedCount := SaturatingSub(decodedCount, 1);
      }
      decoded := decoded - {url};
      lastAccess := lastAccess - {url};
      inner := Unloaded(inner, {url});
    }

    /** Least recently used images go until `needed` bytes fit or none is left, and not one more than that takes. */
    method EvictForSpace(needed: nat, ghost extra: nat) returns (ghost gone: set<Url>)
      requires Books(View(), extra)
      modifies this
      ensures Books(View(), extra) && Evicted(old(View()), View(), gone) && OldestFirst(old(View()), gone)
      ensures currentSize + needed <= maxCacheSize || decoded == map[]
      ensures decodedCount <= old(decodedCount)
      ensures OneFewerFails(old(View()), View(), gone, needed)
    {
      gone := {};
      ghost var start := View();
      EvictNothing(start, extra);
      while currentSize + needed > maxCacheSize && decoded != map[]
        invariant Books(View(), extra) && Evicted(start, View(), gone) && OldestFirst(start, gone)
        invariant OneFewerFails(start, View(), gone, needed) && decodedCount <= start.count
        decreases |decoded|
      {
        ghost var c := View();
        var lru := FindLruKey();
        NeverStuck(c, extra);
        var url := lru.value;
        EvictKeepsBooks(c, url, extra);
        EvictOneMore(start, c, gone, url, extra);
        EvictEntry(url);
        assert View().size + start.decoded[url].size + needed > View().capacity;
        gone := gone + {url};
      }
    }

    /** As many least recently used images go as are counted above the limit. */
    method EvictForCount(ghost extra: nat) returns (ghost gone: set<Url>)
      requires Books(View(), extra) && extra <= MAX_DECODED_IMAGES
      modifies this
      ensures Books(View(), extra) && Evicted(old(View()), View(), gone) && OldestFirst(old(View()), gone)
      ensures |gone| == SaturatingSub(old(decodedCount), MAX_DECODED_IMAGES) && (gone == {} ==> View() == old(View()))
      ensures decodedCount <= MAX_DECODED_IMAGES && currentSize <= old(currentSize)
    {
      gone := {};
      ghost var start := View();
      EvictNothing(start, extra);
      while decodedCount > MAX_DECODED_IMAGES && decoded != map[]
        invariant Books(View(), extra) && Evicted(start, View(), gone) && OldestFirst(start, gone)
        invariant decodedCount == start.count - |gone| && currentSize <= start.size
        invariant gone == {} ==> View() == start
        invariant gone != {} ==> decodedCount >= MAX_DECODED_IMAGES
        decreases |decoded|
      {
        ghost var c := View();
        var lru := FindLruKey();
        NeverStuck(c, extra);
        var url := lru.value;
        EvictKeepsBooks(c, url, extra);
        EvictOneMore(start, c, gone, url, extra);
        EvictEntry(url);
        gone := gone + {url};
      }
    }

    method Coldest(candidates: set<Url>) returns (url: Url)
      requires candidates != {}
      ensures IsColdest(lastAccess, candidates, url)
    {
      url :| url in candidates;
      var left := candidates - {url};
      while left != {}
        invariant left <= candidates && url in candidates
        invariant forall other <- candidates - left :: Colder(lastAccess, url, other)
        decreases left
      {
        var u :| u in left;
        left := left - {u};
        forall other | other in candidates - left
          ensures Colder(lastAccess, if Colder(lastAccess, url, u) then url else u, other)
        {
          ColderIsAnOrder(lastAccess, u, url, other);
        }
        if !Colder(lastAccess, url, u) {
          url := u;
        }
      }
    }

    method ForgetEntry(url: Url)
      modifies this
      ensures View() == Forget(old(View()), url)
    {
      inner := inner - {url};
      lastAccess := lastAccess - {url};
    }

    method DropColdest(overflow: nat) returns (ghost gone: set<Url>)
      requires overflow <= |Metadata(View())|
      modifies this
      ensures |gone| == overflow && Dropping(old(View()), View(), gone, Metadata(old(View())) - gone)
    {
      ghost var start := View();
      gone := {};
      var candidates, left := inner.Keys - decoded.Keys, overflow;
      DropNothing(start);
      while left > 0 && candidates != {}
        invariant Dropping(start, View(), gone, candidates)
        invariant left == overflow - |gone|
        decreases left
      {
        var url := Coldest(candidates);
        DropStep(start, View(), gone, candidates, url);
        ForgetEntry(url);
        candidates, left := candidates - {url}, left - 1;
        gone := gone + {url};
      }
      if candidates == {} {
        DroppedAll(start, View(), gone);
      }
    }

    method PruneMetadata() returns (ghost gone: set<Url>)
      requires decoded.Keys <= inner.Keys && |decoded| <= MAX_METADATA_ENTRIES
      modifies this
      ensures Pruned(old(View()), View(), gone)
    {
      ghost var start := View();
      gone := {};
      assert inner - {} == inner && lastAccess - {} == lastAccess;
      if |inner| > MAX_METADATA_ENTRIES {
        EnoughMetadata(start);
        gone := DropColdest(|inner| - MAX_METADATA_ENTRIES);
      }
      RetainAfterDrop(start, gone);
      lastAccess := map u | u in lastAccess && (u in inner || u in decoded) :: lastAccess[u];
    }

    /** Room made by eviction, `ahead` images being counted before they are stored. */
    method MakeRoom(needed: nat, ghost ahead: nat) returns (ghost gone: set<Url>)
      requires Books(View(), ahead) && ahead <= MAX_DECODED_IMAGES
      modifies this
      ensures Books(View(), ahead) && Evicted(old(View()), View(), gone) && OldestFirst(old(View()), gone)
      ensures currentSize + needed <= maxCacheSize || decoded == map[]
      ensures decodedCount <= MAX_DECODED_IMAGES
      ensures Needed(old(View()), View(), gone, needed)
    {
      ghost var start := View();
      ghost var forSpace := EvictForSpace(needed, ahead);
      ghost var mid := View();
      ghost var forCount := EvictForCount(ahead);
      gone := forSpace + forCount;
      EvictedTwice(start, mid, View(), forSpace, forCount);
      NeededTwice(start, mid, View(), forSpace, forCount, needed);
    }

    /** Stores a decoded image already counted; the tables and the metadata follow. */
    method Place(url: Url, data: ImageData, now: nat) returns (ghost dropped: set<Url>)
      requires Books(View(), 1) && url !in decoded && |decoded| <= MAX_DECODED_IMAGES
      modifies this
      ensures Books(View(), 0) && |inner| <= MAX_METADATA_ENTRIES
      ensures Pruned(Placed(old(View()), url, data, now), View(), dropped)
    {
      ghost var c := View();
      PlacedCounts(c, url, data, now);
      currentSize := currentSize + data.size;
      decoded := decoded[url := data];
      lastAccess := lastAccess[url := now];
      inner := inner[url := Image(data.width, data.height, true)];
      assert View() == Placed(c, url, data, now);
      dropped := PruneMetadata();
      PruneKeepsBooks(Placed(c, url, data, now), View(), dropped);
    }

    method RemoveDecoded(url: Url)
      modifies this
      ensures View() == Without(old(View()), url)
    {
      if url in decoded {
        currentSize := SaturatingSub(currentSize, decoded[url].size);
        decodedCount := SaturatingSub(decodedCount, 1);
      }
      decoded := decoded - {url};
    }

    /** Drops a stale entry of that URL, makes room, and counts the image to come. */
    method ReplaceRoom(url: Url, needed: nat) returns (ghost mid: Cache, ghost gone: set<Url>)
      requires Valid()
      modifies this
      ensures View() == Ahead(mid) && Books(View(), 1) && url !in decoded && |decoded| <= MAX_DECODED_IMAGES
      ensures mid.size + needed <= mid.capacity || mid.decoded == map[]
      ensures var base := Without(old(View()), url);
              Evicted(base, mid, gone) && OldestFirst(base, gone) && Needed(base, mid, gone, needed)
    {
      WithoutKeepsBooks(View(), url);
      RemoveDecoded(url);
      gone := MakeRoom(needed, 0);
      mid := View();
      BooksAhead(mid);
      decodedCount := decodedCount + 1;
    }

    /** `mid` is the cache between eviction and storing. */
    method InsertDecoded(url: Url, data: ImageData, now: nat)
      returns (ghost mid: Cache, ghost gone: set<Url>, ghost dropped: set<Url>)
      requires Valid()
      modifies this
      ensures Valid()
      ensures var base := Without(old(View()), url);
              && Evicted(base, mid, gone) && OldestFirst(base, gone) && Needed(base, mid, gone, data.size)
              && Pruned(Placed(Ahead(mid), url, data, now), View(), dropped)
      ensures data.size > maxCacheSize ==> decoded == map[url := data]
    {
      mid, gone := ReplaceRoom(url, data.size);
      dropped := Place(url, data, now);
      PlacedFits(mid, View(), url, data);
    }

    /** `fetched` is what fetching and decoding came to. */
    method LoadImage(url: Url, now: nat, fetched: Option<ImageData>)
      returns (image: Option<ImageData>, ghost mid: Cache, ghost gone: set<Url>, ghost dropped: set<Url>)
      requires Valid()
      modifies this
      ensures Valid()
      ensures old(url in decoded) ==>
                image == Some(old(decoded)[url]) && View() == old(View()).(stamps := old(lastAccess)[url := now])
      ensures old(url !in decoded) ==> image == fetched && (fetched.None? ==> View() == old(View()))
      ensures old(url !in decoded) && fetched.Some? ==>
                var base := Ahead(old(View()));
                && Evicted(base, mid, gone) && OldestFirst(base, gone) && Needed(base, mid, gone, fetched.value.size)
                && Pruned(Placed(mid, url, fetched.value, now), View(), dropped)
                && |decoded| <= MAX_DECODED_IMAGES
    {
      image := GetDecoded(url, now);
      mid, gone, dropped := View(), {}, {};
      if image.Some? || fetched.None? {
        return;
      }
      decodedCount := decodedCount + 1;
      gone := MakeRoom(fetched.value.size, 1);
      mid := View();
      dropped := Place(url, fetched.value, now);
      PlacedFits(mid.(count := mid.count - 1), View(), url, fetched.value);
      image := fetched;
    }

    method GetDecoded(url: Url, now: nat) returns (image: Option<ImageData>)
      requires Valid()
      modifies this
      ensures Valid()
      ensures image == if url in old(decoded) then Some(old(decoded)[url]) else None
      ensures View() == if url in old(decoded) then old(View()).(stamps := old(lastAccess)[url := now]) else old(View())
    {
      if url in decoded {
        lastAccess := lastAccess[url := now];
        return Some(decoded[url]);
      }
      image := None;
    }

    method AccessImage(url: Url, now: nat) returns (image: Option<Image>)
      requires Valid()
      modifies this
      ensures Valid()
      ensures image == if url in old(inner) then Some(old(inner)[url]) else None
      ensures View() == if url in old(inner) then old(View()).(stamps := old(lastAccess)[url := now]) else old(View())
    {
      if url in inner {
        lastAccess := lastAccess[url := now];
        return Some(inner[url]);
      }
      image := None;
    }

    method Touch(url: Url, now: nat)
      requires Valid()
      modifies this
      ensures Valid()
      ensures View() == if url in old(inner) then old(View()).(stamps := old(lastAccess)[url := now]) else old(View())
    {
      if url in inner || url in decoded {
        lastAccess := lastAccess[url := now];
      }
    }

    method Add(url: Url, img: Image) returns (ghost dropped: set<Url>)
      requires Valid()
      modifies this
      ensures Valid()
      ensures Pruned(Grown(old(View()), url, img), View(), dropped)
    {
      inner := inner[url := img];
      ghost var grown := View();
      dropped := PruneMetadata();
      PruneKeepsBooks(grown, View(), dropped);
    }

    method EvictAll(urls: set<Url>)
      requires Books(View(), 0) && urls <= decoded.Keys
      modifies this
      ensures Books(View(), 0) && Evicted(old(View()), View(), urls) && Shrunk(old(View()), View())
    {
      ghost var start := View();
      var left := urls;
      ClearNone(start, urls);
      while left != {}
        invariant Clearing(start, View(), urls, left)
        decreases left
      {
        var url :| url in left;
        ClearOne(start, View(), urls, left, url);
        EvictEntry(url);
        left := left - {url};
      }
      ClearedAll(start, View(), urls);
    }

    /** Exactly the images not used for longer than `maxAge` go. */
    method EvictStale(now: nat, maxAge: nat) returns (count: nat)
      requires Valid()
      modifies this
      ensures Valid()
      ensures var gone := Stale(old(View()), now, maxAge);
              Evicted(old(View()), View(), gone) && OldestFirst(old(View()), gone) && count == |gone|
    {
      ghost var start := View();
      var stale := set url | url in lastAccess && url in decoded && SaturatingSub(now, lastAccess[url]) > maxAge;
      assert stale == Stale(start, now, maxAge);
      count := |stale|;
      EvictAll(stale);
      StaleIsOldest(start, now, maxAge);
      ShrunkIsSound(start, View());
    }

    method Clear()
      modifies this
      ensures Valid() && View() == Cache(map[], map[], map[], old(maxCacheSize), 0, 0)
    {
      inner, decoded, lastAccess := map[], map[], map[];
      currentSize, decodedCount := 0, 0;
    }

    method SetCapacity(capacity: nat) returns (ghost gone: set<Url>)
      requires Valid()
      modifies this
      ensures Valid()
      ensures var base := old(View()).(capacity := capacity);
              Evicted(base, View(), gone) && OldestFirst(base, gone) && Needed(base, View(), gone, 0)
    {
      maxCacheSize := capacity;
      gone := MakeRoom(0, 0);
      assert inner.Keys == old(inner).Keys;
      assert |inner| == |inner.Keys| && |old(inner)| == |old(inner).Keys|;
    }
  }
}
