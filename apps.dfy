/**
 * The app catalog: the key -> download-link dictionary behind apps.json.
 * Python dictionaries keep insertion order, and that order is visible
 * (the ticket dropdown lists the keys in it and proof detection takes the
 * first key that matches), so the catalog is a sequence of entries with
 * unique keys. Assigning to an existing key keeps its place; a new key
 * goes at the end; deleting a key closes the gap.
 */
module Apps {
  import opened Wrappers
  import opened Strings
  import opened Platform

  datatype App = App(key: string, link: string)

  function Keys(apps: seq<App>): seq<string>
  {
    seq(|apps|, i requires 0 <= i < |apps| => apps[i].key)
  }

  ghost predicate UniqueKeys(apps: seq<App>)
  {
    forall i, j :: 0 <= i < j < |apps| ==> apps[i].key != apps[j].key
  }

  /** The catalog apps.json starts with when the file is missing, in its order. */
  const DefaultApps: seq<App> := [
    App("spotify", "https://link-target.net/1438550/4r4pWdwOV2gK"),
    App("youtube", "https://example.com/youtube-download"),
    App("kinemaster", "https://link-center.net/1438550/dP4XtgqcsuU1"),
    App("hotstar", "https://link-target.net/1438550/WEPSuAD5cl5A"),
    App("truecaller", "https://link-target.net/1438550/kvu1lPW7ZsKu"),
    App("castle", "https://example.com/castle-download")
  ]

  /** Python's dict.get: the link stored under `key`, if any. */
  function Lookup(apps: seq<App>, key: string): (r: Option<string>)
    ensures r.Some? <==> key in Keys(apps)
    ensures r.Some? ==> App(key, r.value) in apps
  {
    if apps == [] then None
    else
      assert Keys(apps) == [apps[0].key] + Keys(apps[1..]);
      if apps[0].key == key then Some(apps[0].link) else Lookup(apps[1..], key)
  }

  /** `apps[key] = link`. */
  function Put(apps: seq<App>, key: string, link: string): seq<App>
  {
    if apps == [] then [App(key, link)]
    else if apps[0].key == key then [App(key, link)] + apps[1..]
    else [apps[0]] + Put(apps[1..], key, link)
  }

  /** `del apps[key]`, or nothing when the key is absent. */
  function Delete(apps: seq<App>, key: string): seq<App>
  {
    if apps == [] then []
    else if apps[0].key == key then apps[1..]
    else [apps[0]] + Delete(apps[1..], key)
  }

  lemma KeysCons(apps: seq<App>)
    requires apps != []
    ensures Keys(apps) == [apps[0].key] + Keys(apps[1..])
  {
  }

  /** With unique keys, Lookup finds the entry at any index holding the key. */
  lemma {:induction false} LookupAt(apps: seq<App>, i: nat)
    requires UniqueKeys(apps) && i < |apps|
    ensures Lookup(apps, apps[i].key) == Some(apps[i].link)
    decreases i
  {
    if i > 0 {
      assert apps[0].key != apps[i].key;
      assert UniqueKeys(apps[1..]) by {
        forall a, b | 0 <= a < b < |apps| - 1 ensures apps[1..][a].key != apps[1..][b].key {
          assert apps[a + 1].key != apps[b + 1].key;
        }
      }
      LookupAt(apps[1..], i - 1);
    }
  }

  /** An existing key is overwritten in place; a new key is appended. */
  lemma {:induction false} PutPlacement(apps: seq<App>, key: string, link: string)
    requires UniqueKeys(apps)
    ensures key !in Keys(apps) ==> Put(apps, key, link) == apps + [App(key, link)]
    ensures key in Keys(apps) ==> (|Put(apps, key, link)| == |apps| &&
      forall i :: 0 <= i < |apps| ==>
        Put(apps, key, link)[i] == if apps[i].key == key then App(key, link) else apps[i])
    decreases |apps|
  {
    if apps != [] {
      KeysCons(apps);
      var r := Put(apps, key, link);
      if apps[0].key == key {
        forall i | 0 < i < |apps| ensures apps[i].key != key {
          assert apps[0].key != apps[i].key;
        }
      } else {
        PutPlacement(apps[1..], key, link);
        assert r == [apps[0]] + Put(apps[1..], key, link);
        if key !in Keys(apps) {
          assert [apps[0]] + (apps[1..] + [App(key, link)]) == apps + [App(key, link)];
        } else {
          forall i | 0 <= i < |apps|
            ensures r[i] == if apps[i].key == key then App(key, link) else apps[i]
          {
            if i > 0 { assert r[i] == Put(apps[1..], key, link)[i - 1]; }
          }
        }
      }
    }
  }

  /** add_app keeps the keys unique. */
  lemma PutUnique(apps: seq<App>, key: string, link: string)
    requires UniqueKeys(apps)
    ensures UniqueKeys(Put(apps, key, link))
  {
    PutPlacement(apps, key, link);
    var r := Put(apps, key, link);
    if key in Keys(apps) {
      forall i, j | 0 <= i < j < |r| ensures r[i].key != r[j].key {
        assert r[i].key == apps[i].key && r[j].key == apps[j].key;
      }
    }
  }

  /** The key order after add_app: unchanged for an overwrite, the new key last otherwise. */
  lemma PutKeys(apps: seq<App>, key: string, link: string)
    requires UniqueKeys(apps)
    ensures Keys(Put(apps, key, link)) ==
      if key in Keys(apps) then Keys(apps) else Keys(apps) + [key]
  {
    PutPlacement(apps, key, link);
    var r := Put(apps, key, link);
    if key in Keys(apps) {
      assert forall i :: 0 <= i < |apps| ==> Keys(r)[i] == Keys(apps)[i];
    } else {
      assert forall i :: 0 <= i < |apps| ==> Keys(r)[i] == Keys(apps)[i];
    }
  }

  /** add_app stores the link under the key and leaves every other key's link as it was. */
  lemma {:induction false} PutLookup(apps: seq<App>, key: string, link: string, other: string)
    ensures Lookup(Put(apps, key, link), key) == Some(link)
    ensures other != key ==> Lookup(Put(apps, key, link), other) == Lookup(apps, other)
    decreases |apps|
  {
    if apps != [] && apps[0].key != key {
      PutLookup(apps[1..], key, link, other);
      assert Put(apps, key, link)[1..] == Put(apps[1..], key, link);
    }
  }

  /** Adding the same app twice is adding it once. */
  lemma PutIdempotent(apps: seq<App>, key: string, link: string)
    requires UniqueKeys(apps)
    ensures Put(Put(apps, key, link), key, link) == Put(apps, key, link)
  {
    var r := Put(apps, key, link);
    PutPlacement(apps, key, link);
    PutUnique(apps, key, link);
    PutKeys(apps, key, link);
    PutPlacement(r, key, link);
    var r2 := Put(r, key, link);
    assert |r2| == |r|;
    forall i | 0 <= i < |r| ensures r2[i] == r[i] {
      if i < |apps| {
        assert r[i] == if apps[i].key == key then App(key, link) else apps[i];
      }
    }
  }

  /** Deleting a key that is not there changes nothing. */
  lemma {:induction false} DeleteAbsent(apps: seq<App>, key: string)
    requires key !in Keys(apps)
    ensures Delete(apps, key) == apps
    decreases |apps|
  {
    if apps != [] {
      KeysCons(apps);
      DeleteAbsent(apps[1..], key);
    }
  }

  /** Deleting a present key removes exactly its entry and keeps the others in order. */
  lemma {:induction false} DeleteAt(apps: seq<App>, key: string, i: nat)
    requires UniqueKeys(apps) && i < |apps| && apps[i].key == key
    ensures Delete(apps, key) == apps[..i] + apps[i + 1..]
    decreases |apps|
  {
    if i > 0 {
      assert apps[0].key != apps[i].key;
      DeleteAt(apps[1..], key, i - 1);
      assert apps[..i] == [apps[0]] + apps[1..][..i - 1];
      assert apps[i + 1..] == apps[1..][i..];
    }
  }

  /** The tail of a catalog with unique keys has unique keys and lacks the head's key. */
  lemma UniqueTail(apps: seq<App>)
    requires UniqueKeys(apps) && apps != []
    ensures UniqueKeys(apps[1..]) && apps[0].key !in Keys(apps[1..])
  {
    forall a, b | 0 <= a < b < |apps| - 1 ensures apps[1..][a].key != apps[1..][b].key {
      assert apps[a + 1].key != apps[b + 1].key;
    }
    forall a | 0 <= a < |apps| - 1 ensures Keys(apps[1..])[a] != apps[0].key {
      assert apps[0].key != apps[a + 1].key;
    }
  }

  /** remove_app leaves every other key's link as it was. */
  lemma {:induction false} DeleteKeepsOthers(apps: seq<App>, key: string, other: string)
    requires other != key
    ensures Lookup(Delete(apps, key), other) == Lookup(apps, other)
    decreases |apps|
  {
    if apps != [] && apps[0].key != key {
      DeleteKeepsOthers(apps[1..], key, other);
      assert Delete(apps, key)[1..] == Delete(apps[1..], key);
    }
  }

  /** After remove_app the key is gone. */
  lemma {:induction false} DeleteRemoves(apps: seq<App>, key: string)
    requires UniqueKeys(apps)
    ensures Lookup(Delete(apps, key), key) == None
    decreases |apps|
  {
    if apps != [] {
      UniqueTail(apps);
      if apps[0].key != key {
        DeleteRemoves(apps[1..], key);
        assert Delete(apps, key)[1..] == Delete(apps[1..], key);
      }
    }
  }

  /** remove_app keeps the keys unique. */
  lemma DeleteUnique(apps: seq<App>, key: string)
    requires UniqueKeys(apps)
    ensures UniqueKeys(Delete(apps, key))
  {
    if key !in Keys(apps) {
      DeleteAbsent(apps, key);
    } else {
      var i :| 0 <= i < |apps| && Keys(apps)[i] == key;
      DeleteAt(apps, key, i);
      var r := Delete(apps, key);
      forall a, b | 0 <= a < b < |r| ensures r[a].key != r[b].key {
        var a', b' := if a < i then a else a + 1, if b < i then b else b + 1;
        assert r[a] == apps[a'] && r[b] == apps[b'];
      }
    }
  }

  /** Adding a new app and removing it again restores the catalog. */
  lemma DeleteUndoesPut(apps: seq<App>, key: string, link: string)
    requires UniqueKeys(apps) && key !in Keys(apps)
    ensures Delete(Put(apps, key, link), key) == apps
  {
    PutPlacement(apps, key, link);
    PutUnique(apps, key, link);
    DeleteAt(Put(apps, key, link), key, |apps|);
    assert (apps + [App(key, link)])[..|apps|] == apps;
  }

  lemma DefaultAppsUnique()
    ensures UniqueKeys(DefaultApps)
    ensures Keys(DefaultApps) == ["spotify", "youtube", "kinemaster", "hotstar", "truecaller", "castle"]
  {
  }

  /** The catalog as the admin commands edit it (apps.json, kept in memory). */
  class Catalog {
    var apps: seq<App>

    ghost predicate Valid()
      reads this
    {
      UniqueKeys(apps)
    }

    constructor ()
      ensures Valid() && apps == DefaultApps
    {
      apps := DefaultApps;
      DefaultAppsUnique();
    }

    /** add_app: stores the link under the lower-cased name and confirms. */
    method AddApp(name: string, link: string, out: Outbox)
      requires Valid()
      modifies this, out
      ensures Valid()
      ensures apps == Put(old(apps), Lower(name), link)
      ensures out.events == old(out.events) + [Send(ToInvoker, AppAdded(Lower(name), link))]
    {
      var key := Lower(name);
      PutUnique(apps, key, link);
      apps := Put(apps, key, link);
      out.Emit(Send(ToInvoker, AppAdded(key, link)));
    }

    /** remove_app: an unknown name is reported and changes nothing; a known one is deleted. */
    method RemoveApp(name: string, out: Outbox) returns (removed: bool)
      requires Valid()
      modifies this, out
      ensures Valid()
      ensures removed <==> Lower(name) in Keys(old(apps))
      ensures !removed ==> apps == old(apps)
      ensures apps == Delete(old(apps), Lower(name))
      ensures out.events == old(out.events) +
        [Send(ToInvoker, if removed then AppRemoved(Lower(name)) else AppMissing(Lower(name)))]
    {
      var key := Lower(name);
      removed := Lookup(apps, key).Some?;
      if !removed {
        DeleteAbsent(apps, key);
        out.Emit(Send(ToInvoker, AppMissing(key)));
      } else {
        DeleteUnique(apps, key);
        apps := Delete(apps, key);
        out.Emit(Send(ToInvoker, AppRemoved(key)));
      }
    }
  }
}
