/** frontend/src/util/helper.ts: the storage key a loaded video file is filed under, and
    the start-up sweep that deletes expired or unreadable video records from the
    browser's local storage. */
module VideoStorage {
  import opened Wrappers
  import opened Text

  const KeyPrefix: string := "video_"

  /** The key of a video file: `video_<name>_<size>_<lastModified>`. */
  function GenerateVideoKey(name: string, size: nat, lastModified: nat): (k: string)
    ensures StartsWith(k, KeyPrefix)
  {
    KeyPrefix + name + "_" + NatToString(size) + "_" + NatToString(lastModified)
  }

  /** Reads a key back into (name, size, lastModified): the two numeric fields are the two
      last '_'-separated fields, and the name is everything between the prefix and them. */
  function ParseVideoKey(k: string): Option<(string, nat, nat)> {
    if !StartsWith(k, KeyPrefix) then None
    else
      var rest := k[|KeyPrefix|..];
      var j := LastIndexOf(rest, '_');
      if j < 0 then None
      else
        var head := rest[..j];
        var modified := rest[j + 1..];
        var i := LastIndexOf(head, '_');
        if i < 0 then None
        else
          var size := head[i + 1..];
          if size != [] && modified != [] && AllDigits(size) && AllDigits(modified)
          then Some((head[..i], DigitsValue(size), DigitsValue(modified)))
          else None
  }

  /** Decimal renderings contain no '_', so the last two '_' of a key are the two
      separators the key derivation inserted, and parsing recovers every attribute. */
  lemma {:induction false} ParseGeneratedKey(name: string, size: nat, lastModified: nat)
    ensures ParseVideoKey(GenerateVideoKey(name, size, lastModified)) == Some((name, size, lastModified))
  {
    var k := GenerateVideoKey(name, size, lastModified);
    var ss := NatToString(size);
    var ms := NatToString(lastModified);
    assert '_' !in ss && '_' !in ms by {
      assert forall i :: 0 <= i < |ss| ==> IsDigit(ss[i]);
      assert forall i :: 0 <= i < |ms| ==> IsDigit(ms[i]);
    }
    var rest := k[|KeyPrefix|..];
    assert rest == (name + "_" + ss) + ['_'] + ms;
    LastIndexOfAppend(name + "_" + ss, '_', ms);
    var j := LastIndexOf(rest, '_');
    assert rest[..j] == name + ['_'] + ss;
    assert rest[j + 1..] == ms;
    LastIndexOfAppend(name, '_', ss);
    var head := rest[..j];
    var i := LastIndexOf(head, '_');
    assert head[..i] == name && head[i + 1..] == ss;
    DigitsValueOfNatToString(size);
    DigitsValueOfNatToString(lastModified);
  }

  /** Two files get the same key only when name, size and modification time all agree. */
  lemma GenerateVideoKeyInjective(n1: string, s1: nat, m1: nat, n2: string, s2: nat, m2: nat)
    requires GenerateVideoKey(n1, s1, m1) == GenerateVideoKey(n2, s2, m2)
    ensures n1 == n2 && s1 == s2 && m1 == m2
  {
    ParseGeneratedKey(n1, s1, m1);
    ParseGeneratedKey(n2, s2, m2);
  }

  // ---------------------------------------------------------------------------------
  // The expiry sweep

  const DefaultMaxAgeInDays: int := 7

  /** `maxAgeInDays * 24 * 60 * 60 * 1000`. */
  function MaxAge(maxAgeInDays: int): int {
    maxAgeInDays * 24 * 60 * 60 * 1000
  }

  /** The part of a stored video record the sweep reads; a property absent from the JSON
      is `None`. */
  datatype VideoRecord = VideoRecord(createdAt: Option<int>, lastAccessed: Option<int>)

  /** One local-storage item: its key and the outcome of `JSON.parse` on its text
      (`None` when parsing throws). */
  datatype Entry = Entry(key: string, parsed: Option<VideoRecord>)

  /** JavaScript truthiness of `data.createdAt`: present and not zero. */
  predicate CreatedAtTruthy(r: VideoRecord) {
    r.createdAt.Some? && r.createdAt.value != 0
  }

  /** The sweep's removal test for one item. */
  predicate Expired(e: Entry, maxAge: int, now: int) {
    StartsWith(e.key, KeyPrefix)
    && (e.parsed.None?
        || (CreatedAtTruthy(e.parsed.value) && now - e.parsed.value.createdAt.value > maxAge))
  }

  predicate UniqueKeys(es: seq<Entry>) {
    forall i, j :: 0 <= i < j < |es| ==> es[i].key != es[j].key
  }

  /** `localStorage.removeItem(key)`: the item with that key goes, the others keep their order. */
  function RemoveKey(es: seq<Entry>, key: string): seq<Entry> {
    if es == [] then []
    else (if es[0].key == key then [] else [es[0]]) + RemoveKey(es[1..], key)
  }

  lemma {:induction false} RemoveKeyAt(es: seq<Entry>, i: nat)
    requires UniqueKeys(es) && i < |es|
    ensures RemoveKey(es, es[i].key) == es[..i] + es[i + 1..]
    decreases i
  {
    var key := es[i].key;
    var tail := es[1..];
    if i > 0 {
      assert es[0].key != key;
      assert UniqueKeys(tail) by {
        forall a, b | 0 <= a < b < |tail| ensures tail[a].key != tail[b].key {
          assert tail[a] == es[a + 1] && tail[b] == es[b + 1];
        }
      }
      assert tail[i - 1] == es[i];
      RemoveKeyAt(tail, i - 1);
      assert RemoveKey(es, key) == [es[0]] + (tail[..i - 1] + tail[i..]);
      assert [es[0]] + tail[..i - 1] == es[..i];
      assert tail[i..] == es[i + 1..];
    } else {
      assert forall e :: e in tail ==> e.key != key by {
        forall e | e in tail ensures e.key != key {
          var j :| 0 <= j < |tail| && tail[j] == e;
          assert es[j + 1] == e;
        }
      }
      RemoveKeyAbsent(tail, key);
    }
  }

  lemma {:induction false} RemoveKeyMembers(es: seq<Entry>, key: string)
    ensures forall e :: e in RemoveKey(es, key) <==> e in es && e.key != key
    decreases |es|
  {
    if es != [] {
      RemoveKeyMembers(es[1..], key);
      assert es == [es[0]] + es[1..];
    }
  }

  lemma RemoveKeyAbsent(es: seq<Entry>, key: string)
    requires forall e :: e in es ==> e.key != key
    ensures RemoveKey(es, key) == es
  {
  }

  /** The loop of `cleanupExpiredVideos` as written, from index `i`: an expired item is
      removed, which moves the next item down to index `i`, and then `i` is incremented
      anyway, so that next item is never looked at. */
  function SweepFrom(es: seq<Entry>, i: nat, maxAge: int, now: int): seq<Entry>
    decreases |es| + 1 - i
  {
    if i >= |es| then es
    else if Expired(es[i], maxAge, now) then SweepFrom(es[..i] + es[i + 1..], i + 1, maxAge, now)
    else SweepFrom(es, i + 1, maxAge, now)
  }

  /** The sweep only deletes: every surviving item was stored before with the same value,
      the items before the starting index stay, and no item that is not expired is removed.
      So a key without the "video_" prefix, a record with missing or zero `createdAt`, and a
      record exactly `maxAge` old all survive. */
  lemma {:induction false} SweepKeeps(es: seq<Entry>, i: nat, maxAge: int, now: int)
    ensures var r := SweepFrom(es, i, maxAge, now);
            (forall e :: e in r ==> e in es)
            && (forall j :: 0 <= j < |es| && (j < i || !Expired(es[j], maxAge, now)) ==> es[j] in r)
    decreases |es| + 1 - i
  {
    if i < |es| {
      if Expired(es[i], maxAge, now) {
        var es' := es[..i] + es[i + 1..];
        SweepKeeps(es', i + 1, maxAge, now);
        forall j | 0 <= j < |es| && (j < i || !Expired(es[j], maxAge, now))
          ensures es[j] in SweepFrom(es, i, maxAge, now)
        {
          if j < i { assert es'[j] == es[j]; } else { assert es'[j - 1] == es[j]; }
        }
      } else {
        SweepKeeps(es, i + 1, maxAge, now);
      }
    }
  }

  /** What the source promises of one sweep from the start of the store: an item is
      removed only if it is a video record that is unreadable, or whose truthy `createdAt`
      is more than `maxAge` before `now`. */
  lemma SweepRemovesOnlyExpired(es: seq<Entry>, maxAge: int, now: int, e: Entry)
    requires e in es && e !in SweepFrom(es, 0, maxAge, now)
    ensures StartsWith(e.key, KeyPrefix)
    ensures e.parsed.None? || (CreatedAtTruthy(e.parsed.value) && now - e.parsed.value.createdAt.value > maxAge)
  {
    SweepKeeps(es, 0, maxAge, now);
    var j :| 0 <= j < |es| && es[j] == e;
  }

  /** The item right after a removed one is skipped: with two unreadable video records side
      by side, one pass removes the first and leaves the second. */
  lemma SweepSkipsNextKey()
    ensures var es := [Entry("video_a_1_1", None), Entry("video_b_2_2", None)];
            SweepFrom(es, 0, MaxAge(DefaultMaxAgeInDays), 0) == [es[1]]
  {
    var es := [Entry("video_a_1_1", None), Entry("video_b_2_2", None)];
    var m := MaxAge(DefaultMaxAgeInDays);
    assert Expired(es[0], m, 0) && Expired(es[1], m, 0);
    assert es[..0] + es[1..] == [es[1]];
  }

  /** The evidently intended sweep: every expired item goes, everything else stays in order. */
  function KeepLive(es: seq<Entry>, maxAge: int, now: int): (r: seq<Entry>)
    ensures forall e :: e in r <==> e in es && !Expired(e, maxAge, now)
  {
    if es == [] then []
    else (if Expired(es[0], maxAge, now) then [] else [es[0]]) + KeepLive(es[1..], maxAge, now)
  }

  /** A second pass of the intended sweep with the same clock removes nothing more. */
  lemma {:induction false} KeepLiveIdempotent(es: seq<Entry>, maxAge: int, now: int)
    ensures KeepLive(KeepLive(es, maxAge, now), maxAge, now) == KeepLive(es, maxAge, now)
    decreases |es|
  {
    if es != [] {
      KeepLiveIdempotent(es[1..], maxAge, now);
      var rest := KeepLive(es[1..], maxAge, now);
      if Expired(es[0], maxAge, now) {
        assert KeepLive(es, maxAge, now) == rest;
      } else {
        var kept := [es[0]] + rest;
        assert KeepLive(es, maxAge, now) == kept;
        assert kept[0] == es[0] && kept[1..] == rest;
        assert KeepLive(kept, maxAge, now) == [es[0]] + KeepLive(rest, maxAge, now);
      }
    }
  }

  /** One step of the intended sweep's loop that removes the item at `i`. */
  lemma KeepLiveSkipExpired(es: seq<Entry>, i: nat, maxAge: int, now: int)
    requires i < |es| && Expired(es[i], maxAge, now)
    ensures var es' := es[..i] + es[i + 1..];
            es'[..i] + KeepLive(es'[i..], maxAge, now) == es[..i] + KeepLive(es[i..], maxAge, now)
  {
    var es' := es[..i] + es[i + 1..];
    assert es'[..i] == es[..i];
    assert es'[i..] == es[i + 1..];
    assert KeepLive(es[i..], maxAge, now) == KeepLive(es[i + 1..], maxAge, now) by {
      assert es[i..][1..] == es[i + 1..];
    }
  }

  /** One step of the intended sweep's loop that keeps the item at `i`. */
  lemma KeepLiveSkipLive(es: seq<Entry>, i: nat, maxAge: int, now: int)
    requires i < |es| && !Expired(es[i], maxAge, now)
    ensures es[..i + 1] + KeepLive(es[i + 1..], maxAge, now) == es[..i] + KeepLive(es[i..], maxAge, now)
  {
    assert es[i..][1..] == es[i + 1..];
    assert es[..i + 1] == es[..i] + [es[i]];
  }

  /** The browser's local storage for this origin, as an ordered list of items. */
  class BrowserStore {
    var entries: seq<Entry>

    ghost predicate Valid()
      reads this
    {
      UniqueKeys(entries)
    }

    constructor (initial: seq<Entry>)
      requires UniqueKeys(initial)
      ensures Valid() && entries == initial
    {
      entries := initial;
    }

    /** `localStorage.removeItem(key)`. */
    method RemoveItem(key: string)
      requires Valid()
      modifies this
      ensures Valid()
      ensures entries == RemoveKey(old(entries), key)
    {
      entries := RemoveKey(entries, key);
      forall i, j | 0 <= i < j < |entries| ensures entries[i].key != entries[j].key {
        RemoveKeyKeepsUnique(old(entries), key);
      }
    }

    static lemma {:induction false} RemoveKeyKeepsUnique(es: seq<Entry>, key: string)
      requires UniqueKeys(es)
      ensures UniqueKeys(RemoveKey(es, key))
      decreases |es|
    {
      if es != [] {
        RemoveKeyKeepsUnique(es[1..], key);
        RemoveKeyMembers(es[1..], key);
        var tail := RemoveKey(es[1..], key);
        forall e | e in tail ensures e.key != es[0].key {
          var j :| 0 <= j < |es[1..]| && es[1..][j] == e;
          assert es[j + 1] == e;
        }
      }
    }

    /** `cleanupExpiredVideos(maxAgeInDays = 7)` as written, with `Date.now()` passed as `now`;
        a call without a maximum age uses the default of 7 days. */
    method CleanupExpiredVideos(now: int, maxAgeInDays: int := DefaultMaxAgeInDays)
      requires Valid()
      modifies this
      ensures Valid()
      ensures entries == SweepFrom(old(entries), 0, MaxAge(maxAgeInDays), now)
    {
      var maxAge := MaxAge(maxAgeInDays);
      var i := 0;
      while i < |entries|
        invariant Valid()
        invariant SweepFrom(entries, i, maxAge, now) == SweepFrom(old(entries), 0, maxAge, now)
        decreases |entries| + 1 - i
      {
        var key := entries[i].key;
        if StartsWith(key, KeyPrefix) {
          match entries[i].parsed {
            case None =>
              RemoveKeyAt(entries, i);
              RemoveItem(key);
            case Some(data) =>
              if CreatedAtTruthy(data) && now - data.createdAt.value > maxAge {
                RemoveKeyAt(entries, i);
                RemoveItem(key);
              }
          }
        }
        i := i + 1;
      }
    }

    /** The sweep with the index advanced only past items it keeps, with the same 7-day
        default maximum age. */
    method CleanupExpiredVideosCorrected(now: int, maxAgeInDays: int := DefaultMaxAgeInDays)
      requires Valid()
      modifies this
      ensures Valid()
      ensures entries == KeepLive(old(entries), MaxAge(maxAgeInDays), now)
      ensures forall e :: e in entries ==> !Expired(e, MaxAge(maxAgeInDays), now)
    {
      var maxAge := MaxAge(maxAgeInDays);
      var i := 0;
      while i < |entries|
        invariant Valid()
        invariant i <= |entries|
        invariant entries[..i] + KeepLive(entries[i..], maxAge, now) == KeepLive(old(entries), maxAge, now)
        decreases |entries| - i
      {
        var key := entries[i].key;
        if Expired(entries[i], maxAge, now) {
          KeepLiveSkipExpired(entries, i, maxAge, now);
          RemoveKeyAt(entries, i);
          RemoveItem(key);
        } else {
          KeepLiveSkipLive(entries, i, maxAge, now);
          i := i + 1;
        }
      }
      assert entries[i..] == [];
      assert entries[..i] == entries;
    }
  }
}
