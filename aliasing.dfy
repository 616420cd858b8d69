/**
 * Alternative download destinations. A container whose `master_dbid` is
 * another container's dbid stores its files in that container's directory;
 * the master keeps the dbids redirected to it in `slave_dbid_list`.
 *
 * `add_slave_dbid`, `del_slave_dbid` and `set_master_dbid` are specified
 * here on values; the registry class (registry.dfy) runs them in place.
 */
module Aliasing {
  import opened Wrappers
  import opened Media

  /** No dbid occurs twice. */
  ghost predicate NoDup(s: seq<int>)
  {
    forall i, j :: 0 <= i < j < |s| ==> s[i] != s[j]
  }

  /** In a list without duplicates, a listed dbid occurs exactly once. */
  lemma {:induction false} NoDupOnce(s: seq<int>, x: int)
    requires NoDup(s) && x in s
    ensures multiset(s)[x] == 1
    decreases |s|
  {
    var init, last := s[..|s| - 1], s[|s| - 1];
    assert s == init + [last];
    if last == x {
      forall j | 0 <= j < |init|
        ensures init[j] != x
      {
        assert init[j] == s[j];
      }
      assert multiset(init)[x] == 0;
    } else {
      assert NoDup(init) by {
        forall i, j | 0 <= i < j < |init|
          ensures init[i] != init[j]
        {
          assert init[i] == s[i] && init[j] == s[j];
        }
      }
      assert x in init;
      NoDupOnce(init, x);
    }
  }

  /** `add_slave_dbid`: the dbid is appended unless it is already listed */
  function WithSlave(s: seq<int>, x: int): (r: seq<int>)
    ensures x in r
    ensures x in s ==> r == s
    ensures x !in s ==> r == s + [x]
    ensures NoDup(s) ==> NoDup(r) && multiset(r)[x] == 1
  {
    if x in s then
      assert NoDup(s) ==> multiset(s)[x] == 1 by {
        if NoDup(s) {
          NoDupOnce(s, x);
        }
      }
      s
    else
      assert NoDup(s) ==> NoDup(s + [x]) by {
        if NoDup(s) {
          forall i, j | 0 <= i < j < |s + [x]|
            ensures (s + [x])[i] != (s + [x])[j]
          {
            assert (s + [x])[i] == s[i];
            if j == |s| {
              assert s[i] in s;
            }
          }
        }
      }
      s + [x]
  }

  /** `del_slave_dbid`: every occurrence of the dbid goes, the others stay in order */
  function WithoutSlave(s: seq<int>, x: int): (r: seq<int>)
    ensures x !in r
    ensures forall y :: y != x ==> multiset(r)[y] == multiset(s)[y]
  {
    if s == [] then []
    else
      assert s == s[..|s| - 1] + [s[|s| - 1]];
      WithoutSlave(s[..|s| - 1], x) + (if s[|s| - 1] == x then [] else [s[|s| - 1]])
  }

  /** What `del_slave_dbid`'s loop adds for one more element of the list */
  lemma WithoutSlaveSnoc(s: seq<int>, y: int, x: int)
    ensures WithoutSlave(s + [y], x) == WithoutSlave(s, x) + (if y == x then [] else [y])
  {
    assert (s + [y])[..|s + [y]| - 1] == s;
  }

  /** Removing a dbid from a list, piece by piece, is removing it from each piece. */
  lemma {:induction false} WithoutSlaveAppend(a: seq<int>, b: seq<int>, x: int)
    ensures WithoutSlave(a + b, x) == WithoutSlave(a, x) + WithoutSlave(b, x)
    decreases |b|
  {
    if b == [] {
      assert a + b == a;
    } else {
      var b0, last := b[..|b| - 1], b[|b| - 1];
      var tail := if last == x then [] else [last];
      assert b == b0 + [last];
      assert a + b == (a + b0) + [last];
      WithoutSlaveAppend(a, b0, x);
      WithoutSlaveSnoc(a + b0, last, x);
      WithoutSlaveSnoc(b0, last, x);
      assert WithoutSlave(a + b, x) == (WithoutSlave(a, x) + WithoutSlave(b0, x)) + tail;
    }
  }

  /** A list without duplicates stays without them. */
  lemma {:induction false} WithoutSlaveNoDup(s: seq<int>, x: int)
    requires NoDup(s)
    ensures NoDup(WithoutSlave(s, x))
    decreases |s|
  {
    if s != [] {
      var init, last := s[..|s| - 1], s[|s| - 1];
      assert NoDup(init) by {
        forall i, j | 0 <= i < j < |init|
          ensures init[i] != init[j]
        {
          assert init[i] == s[i] && init[j] == s[j];
        }
      }
      WithoutSlaveNoDup(init, x);
      var front := WithoutSlave(init, x);
      forall j | 0 <= j < |init|
        ensures init[j] != last
      {
        assert init[j] == s[j];
      }
      assert multiset(init)[last] == 0;
      assert last != x ==> multiset(front)[last] == 0;
      var r := WithoutSlave(s, x);
      assert r == front + (if last == x then [] else [last]);
      forall i, j | 0 <= i < j < |r|
        ensures r[i] != r[j]
      {
        if j < |front| {
          assert r[i] == front[i] && r[j] == front[j];
        } else {
          assert r[i] == front[i] && r[i] in multiset(front);
        }
      }
    }
  }

  /** Removing a dbid that is not listed changes nothing, and adding one and removing it again restores the list. */
  lemma {:induction false} WithoutSlaveInverse(s: seq<int>, x: int)
    requires x !in s
    ensures WithoutSlave(s, x) == s
    ensures WithoutSlave(WithSlave(s, x), x) == s
    decreases |s|
  {
    if s != [] {
      var init := s[..|s| - 1];
      assert s == init + [s[|s| - 1]];
      WithoutSlaveInverse(init, x);
    }
    WithoutSlaveSnoc(s, x, x);
  }

  // ---------------------------------------------------------------------------
  // set_master_dbid
  // ---------------------------------------------------------------------------

  /** The registry after a call, and whether the call returned normally (false: it raised) */
  datatype AliasOutcome = AliasOutcome(db: map<int, Media>, ok: bool)

  function MasterOf(m: Media): int
  {
    m.box.masterDbid
  }

  function SlavesOf(m: Media): seq<int>
  {
    m.box.slaveDbids
  }

  /** A container with its slave list replaced */
  function WithSlaves(m: Media, s: seq<int>): (r: Media)
    ensures r.kind == m.kind && MasterOf(r) == MasterOf(m) && SlavesOf(r) == s
  {
    m.(box := m.box.(slaveDbids := s))
  }

  /** A container with its master replaced */
  function WithMaster(m: Media, dbid: int): (r: Media)
    ensures r.kind == m.kind && MasterOf(r) == dbid && SlavesOf(r) == SlavesOf(m)
  {
    m.(box := m.box.(masterDbid := dbid))
  }

  /** The first half of `set_master_dbid`: a registered old master drops `id`, and `id` takes `dbid`. */
  function Unlink(db: map<int, Media>, id: int, dbid: int): (r: map<int, Media>)
    requires id in db
  {
    var was := MasterOf(db[id]);
    var db1 := if was != id && was in db then db[was := WithSlaves(db[was], WithoutSlave(SlavesOf(db[was]), id))] else db;
    db1[id := WithMaster(db1[id], dbid)]
  }

  /** The second half: the new master lists `id`. */
  function Link(db: map<int, Media>, id: int, dbid: int): map<int, Media>
    requires dbid in db
  {
    db[dbid := WithSlaves(db[dbid], WithSlave(SlavesOf(db[dbid]), id))]
  }

  /**
   * `set_master_dbid(dbid)` on the container `id`, with the partial updates
   * its failures leave behind:
   * - the same value again changes nothing;
   * - a registered old master that is a Video raises (it has no
   *   `del_slave_dbid`) before anything changes;
   * - otherwise the old master stops listing `id`, and `id` takes the new value;
   * - then a new master other than `id` that is not registered raises (a
   *   missing key), and one that is a Video raises (no `add_slave_dbid`),
   *   both after the changes above;
   * - otherwise the new master lists `id`.
   */
  function SetMaster(db: map<int, Media>, id: int, dbid: int): (r: AliasOutcome)
    requires id in db
    ensures r.db.Keys == db.Keys
    ensures dbid == MasterOf(db[id]) ==> r == AliasOutcome(db, true)
    ensures r.ok && dbid != MasterOf(db[id]) ==> MasterOf(r.db[id]) == dbid
  {
    var was := MasterOf(db[id]);
    if dbid == was then AliasOutcome(db, true)
    else if was != id && was in db && db[was].IsVideo() then AliasOutcome(db, false)
    else
      var db2 := Unlink(db, id, dbid);
      if dbid == id then AliasOutcome(db2, true)
      else if dbid !in db2 || db2[dbid].IsVideo() then AliasOutcome(db2, false)
      else AliasOutcome(Link(db2, id, dbid), true)
  }

  /** `s`, listed by `m`, is another registered container redirected to `m`. */
  ghost predicate SlaveOk(db: map<int, Media>, m: int, s: int)
  {
    s in db && db[s].IsContainer() && MasterOf(db[s]) == m && s != m
  }

  /**
   * The links agree in both directions, except that `x`, when given, is
   * listed nowhere and its own master may name anything: every redirected
   * container is listed by a registered container that is its master, and
   * every listed dbid is another registered container redirected there,
   * listed once.
   */
  ghost predicate ConsistentBut(db: map<int, Media>, x: Option<int>)
  {
    && (forall id :: id in db && db[id].IsContainer() && MasterOf(db[id]) != id && x != Some(id) ==>
          MasterOf(db[id]) in db && db[MasterOf(db[id])].IsContainer() && id in SlavesOf(db[MasterOf(db[id])]))
    && (forall m, i :: m in db && db[m].IsContainer() && 0 <= i < |SlavesOf(db[m])| ==>
          SlaveOk(db, m, SlavesOf(db[m])[i]) && x != Some(SlavesOf(db[m])[i]))
    && (forall m :: m in db && db[m].IsContainer() ==> NoDup(SlavesOf(db[m])))
  }

  /** The master and slave links of every container agree. */
  ghost predicate AliasConsistent(db: map<int, Media>)
  {
    ConsistentBut(db, None)
  }

  /** Setting the value a container already has is a no-op. */
  lemma SetMasterUnchanged(db: map<int, Media>, id: int)
    requires id in db && db[id].IsContainer()
    ensures SetMaster(db, id, MasterOf(db[id])) == AliasOutcome(db, true)
  {
  }

  /**
   * On consistent links, a call that returns normally leaves them
   * consistent; the old master no longer lists `id`, and a new master other
   * than `id` lists it exactly once.
   */
  lemma SetMasterKeepsConsistent(db: map<int, Media>, id: int, dbid: int)
    requires id in db && db[id].IsContainer() && AliasConsistent(db)
    ensures var r := SetMaster(db, id, dbid);
      r.ok ==> MasterOf(r.db[id]) == dbid && AliasConsistent(r.db)
    ensures var r := SetMaster(db, id, dbid); var was := MasterOf(db[id]);
      r.ok && was != id && was != dbid ==> id !in SlavesOf(r.db[was])
    ensures var r := SetMaster(db, id, dbid);
      r.ok && dbid != id ==> multiset(SlavesOf(r.db[dbid]))[id] == 1
  {
    var was := MasterOf(db[id]);
    if dbid == was {
      if dbid != id {
        NoDupOnce(SlavesOf(db[was]), id);
      }
    } else {
      MovedKeepsConsistent(db, id, dbid);
    }
  }

  /** `SetMasterKeepsConsistent` for a new value */
  lemma MovedKeepsConsistent(db: map<int, Media>, id: int, dbid: int)
    requires id in db && db[id].IsContainer() && AliasConsistent(db) && dbid != MasterOf(db[id])
    ensures var r := SetMaster(db, id, dbid); var was := MasterOf(db[id]);
      && (r.ok ==> MasterOf(r.db[id]) == dbid && AliasConsistent(r.db))
      && (r.ok && was != id ==> id !in SlavesOf(r.db[was]))
      && (r.ok && dbid != id ==> multiset(SlavesOf(r.db[dbid]))[id] == 1)
  {
    var was := MasterOf(db[id]);
    if was != id && was in db && db[was].IsVideo() {
      return;
    }
    var db2 := Unlink(db, id, dbid);
    UnlinkFrame(db, id, dbid);
    UnlinkConsistent(db, db2, id, dbid);
    if dbid == id {
      assert SetMaster(db, id, dbid) == AliasOutcome(db2, true);
      Released(db2, id);
    } else if dbid in db2 && db2[dbid].IsContainer() {
      var db3 := Link(db2, id, dbid);
      assert SetMaster(db, id, dbid) == AliasOutcome(db3, true);
      LinkFrame(db2, id, dbid);
      LinkConsistent(db2, db3, id, dbid);
    }
  }

  /** `db2` is `db` with `id` redirected to `dbid` and dropped from its old master's list. */
  ghost predicate UnlinkStep(db: map<int, Media>, db2: map<int, Media>, id: int, dbid: int)
    requires id in db
  {
    var was := MasterOf(db[id]);
    && db2.Keys == db.Keys
    && (forall k :: k in db ==> db2[k].kind == db[k].kind)
    && (forall k :: k in db && k != id ==> MasterOf(db2[k]) == MasterOf(db[k]))
    && MasterOf(db2[id]) == dbid
    && (forall k :: k in db && (k != was || was == id) ==> SlavesOf(db2[k]) == SlavesOf(db[k]))
    && (was != id && was in db ==> SlavesOf(db2[was]) == WithoutSlave(SlavesOf(db[was]), id))
  }

  /** How the first half changes the registry */
  lemma UnlinkFrame(db: map<int, Media>, id: int, dbid: int)
    requires id in db
    ensures UnlinkStep(db, Unlink(db, id, dbid), id, dbid)
  {
  }

  /** After the first half, everything but `id` is consistent and nothing lists `id`. */
  lemma UnlinkConsistent(db: map<int, Media>, db2: map<int, Media>, id: int, dbid: int)
    requires id in db && db[id].IsContainer() && AliasConsistent(db)
    requires UnlinkStep(db, db2, id, dbid)
    ensures ConsistentBut(db2, Some(id))
    ensures var was := MasterOf(db[id]); was != id ==> id !in SlavesOf(db2[was])
  {
    var was := MasterOf(db[id]);
    if was != id {
      WithoutSlaveNoDup(SlavesOf(db[was]), id);
    }
    forall c | c in db2 && db2[c].IsContainer() && MasterOf(db2[c]) != c && Some(id) != Some(c)
      ensures MasterOf(db2[c]) in db2 && db2[MasterOf(db2[c])].IsContainer()
      ensures c in SlavesOf(db2[MasterOf(db2[c])])
    {
      UnlinkKeepsMaster(db, db2, id, dbid, c);
    }
    forall m, i | m in db2 && db2[m].IsContainer() && 0 <= i < |SlavesOf(db2[m])|
      ensures SlaveOk(db2, m, SlavesOf(db2[m])[i]) && Some(id) != Some(SlavesOf(db2[m])[i])
    {
      UnlinkKeepsSlave(db, db2, id, dbid, m, SlavesOf(db2[m])[i]);
    }
  }

  /** A container other than `id` is still listed by its master after the first half. */
  lemma UnlinkKeepsMaster(db: map<int, Media>, db2: map<int, Media>, id: int, dbid: int, c: int)
    requires id in db && db[id].IsContainer() && AliasConsistent(db)
    requires UnlinkStep(db, db2, id, dbid)
    requires c in db2 && db2[c].IsContainer() && MasterOf(db2[c]) != c && c != id
    ensures MasterOf(db2[c]) in db2 && db2[MasterOf(db2[c])].IsContainer()
    ensures c in SlavesOf(db2[MasterOf(db2[c])])
  {
    var m := MasterOf(db[c]);
    assert c in SlavesOf(db[m]);
    var was := MasterOf(db[id]);
    if m == was && was != id {
      assert c in multiset(SlavesOf(db[m]));
      assert multiset(SlavesOf(db2[m]))[c] == multiset(SlavesOf(db[m]))[c];
    }
  }

  /** A dbid still listed after the first half is a proper slave, and it is not `id`. */
  lemma UnlinkKeepsSlave(db: map<int, Media>, db2: map<int, Media>, id: int, dbid: int, m: int, s: int)
    requires id in db && db[id].IsContainer() && AliasConsistent(db)
    requires UnlinkStep(db, db2, id, dbid)
    requires m in db2 && db2[m].IsContainer() && s in SlavesOf(db2[m])
    ensures SlaveOk(db2, m, s) && s != id
  {
    var was := MasterOf(db[id]);
    assert s in SlavesOf(db[m]) by {
      if m == was && was != id {
        assert s in multiset(SlavesOf(db2[m]));
        assert multiset(SlavesOf(db2[m]))[s] == multiset(SlavesOf(db[m]))[s];
      }
    }
    var j :| 0 <= j < |SlavesOf(db[m])| && SlavesOf(db[m])[j] == s;
    assert SlaveOk(db, m, s);
  }

  /** A container that is its own destination and that nothing lists makes the exemption unnecessary. */
  lemma Released(db: map<int, Media>, id: int)
    requires ConsistentBut(db, Some(id)) && id in db && MasterOf(db[id]) == id
    ensures AliasConsistent(db)
  {
  }

  /** How the second half changes the registry */
  lemma LinkFrame(db: map<int, Media>, id: int, dbid: int)
    requires dbid in db
    ensures var db3 := Link(db, id, dbid);
      && db3.Keys == db.Keys
      && (forall k :: k in db ==> db3[k].kind == db[k].kind && MasterOf(db3[k]) == MasterOf(db[k]))
      && (forall k :: k in db && k != dbid ==> SlavesOf(db3[k]) == SlavesOf(db[k]))
      && SlavesOf(db3[dbid]) == WithSlave(SlavesOf(db[dbid]), id)
  {
  }

  /** Listing `id` at the container it now names makes everything consistent. */
  lemma LinkConsistent(db: map<int, Media>, db3: map<int, Media>, id: int, dbid: int)
    requires ConsistentBut(db, Some(id)) && id in db && db[id].IsContainer()
    requires MasterOf(db[id]) == dbid && dbid != id && dbid in db && db[dbid].IsContainer()
    requires db3.Keys == db.Keys
    requires forall k :: k in db ==> db3[k].kind == db[k].kind && MasterOf(db3[k]) == MasterOf(db[k])
    requires forall k :: k in db && k != dbid ==> SlavesOf(db3[k]) == SlavesOf(db[k])
    requires SlavesOf(db3[dbid]) == WithSlave(SlavesOf(db[dbid]), id)
    ensures AliasConsistent(db3) && multiset(SlavesOf(db3[dbid]))[id] == 1
  {
    var before := SlavesOf(db[dbid]);
    forall j | 0 <= j < |before|
      ensures before[j] != id
    {
    }
    assert id !in before;
    assert SlavesOf(db3[dbid]) == before + [id];
    forall m, i | m in db3 && db3[m].IsContainer() && 0 <= i < |SlavesOf(db3[m])|
      ensures SlaveOk(db3, m, SlavesOf(db3[m])[i])
    {
      if m == dbid && i < |before| {
        assert SlavesOf(db3[m])[i] == before[i];
        assert SlaveOk(db, m, before[i]);
      } else if m != dbid {
        assert SlaveOk(db, m, SlavesOf(db[m])[i]);
      }
    }
  }
}
