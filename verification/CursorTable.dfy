/** The replication cursors of `cursors.go`: slave -> subvolume -> last common snapshot. */
module CursorTable {
  import opened Wrappers
  import opened Snapshots

  /** The last snapshot known to exist on the master and on a slave. */
  datatype Cursor = Cursor(name: Name, uuid: Uuid)

  type Cursors = map<string, map<string, Cursor>>

  function CursorOf(s: Snapshot): Cursor {
    Cursor(s.name, s.copy.SendUuid())
  }

  /** The first local snapshot that is sent under the cursor's UUID. */
  function Find(c: Cursor, local: seq<Snapshot>): Option<Snapshot> {
    if local == [] then None
    else if local[0].copy.SendUuid() == c.uuid then Some(local[0])
    else Find(c, local[1..])
  }

  method FindSnapshot(c: Cursor, local: seq<Snapshot>) returns (r: Option<Snapshot>)
    ensures r == Find(c, local)
  {
    for i := 0 to |local|
      invariant Find(c, local) == Find(c, local[i..])
    {
      if local[i].copy.SendUuid() == c.uuid {
        return Some(local[i]);
      }
    }
    return None;
  }

  lemma {:induction false} FindBySendUuid(c: Cursor, local: seq<Snapshot>)
    ensures Find(c, local).None? <==> forall x | x in local :: x.copy.SendUuid() != c.uuid
    ensures Find(c, local).Some? ==> Find(c, local).value in local && Find(c, local).value.copy.SendUuid() == c.uuid
  {
    if local != [] && local[0].copy.SendUuid() != c.uuid {
      FindBySendUuid(c, local[1..]);
      assert local == [local[0]] + local[1..];
    }
  }

  function Get(c: Cursors, slave: string, subvol: string): Option<Cursor> {
    if slave in c && subvol in c[slave] then Some(c[slave][subvol]) else None
  }

  function Set(c: Cursors, slave: string, subvol: string, s: Snapshot): Cursors {
    c[slave := (if slave in c then c[slave] else map[])[subvol := CursorOf(s)]]
  }

  function Clear(c: Cursors, slave: string, subvol: string): Cursors {
    if slave in c then c[slave := c[slave] - {subvol}] else c
  }

  lemma SetGet(c: Cursors, slave: string, subvol: string, s: Snapshot)
    ensures Get(Set(c, slave, subvol, s), slave, subvol) == Some(CursorOf(s))
    ensures forall sl, v | sl != slave || v != subvol :: Get(Set(c, slave, subvol, s), sl, v) == Get(c, sl, v)
  {
  }

  lemma ClearGet(c: Cursors, slave: string, subvol: string)
    ensures Get(Clear(c, slave, subvol), slave, subvol) == None
    ensures forall sl, v | sl != slave || v != subvol :: Get(Clear(c, slave, subvol), sl, v) == Get(c, sl, v)
  {
  }

  /** What `save` writes: the non-empty tables of the configured slaves. */
  function Saved(c: Cursors, slaves: seq<string>): Cursors {
    map slave | slave in c && slave in slaves && |c[slave]| > 0 :: c[slave]
  }

  /** Saving and loading again loses nothing but the slaves that are no longer configured. */
  lemma SavedKeepsConfigured(c: Cursors, slaves: seq<string>, slave: string, subvol: string)
    ensures Get(Saved(c, slaves), slave, subvol) == if slave in slaves then Get(c, slave, subvol) else None
    ensures slave in Saved(c, slaves) ==> slave in slaves && exists v :: Get(c, slave, v).Some?
  {
    if slave in Saved(c, slaves) {
      assert c[slave].Keys != {};
      var v :| v in c[slave];
      assert Get(c, slave, v).Some?;
    }
    if Get(c, slave, subvol).Some? {
      assert subvol in c[slave].Keys;
      assert |c[slave]| > 0;
    }
  }

  /** The table in memory, updated in place during a cycle. */
  class Table {
    var m: Cursors

    constructor (loaded: Cursors)
      ensures m == loaded
    {
      m := loaded;
    }

    method SetTo(slave: string, subvol: string, s: Snapshot)
      modifies this
      ensures m == Set(old(m), slave, subvol, s)
    {
      if slave !in m {
        m := m[slave := map[]];
      }
      m := m[slave := m[slave][subvol := CursorOf(s)]];
    }

    method Remove(slave: string, subvol: string)
      modifies this
      ensures m == Clear(old(m), slave, subvol)
    {
      if slave in m {
        m := m[slave := m[slave] - {subvol}];
      }
    }

    /** Builds what is written to the file, slave by slave. */
    method ToSave(slaves: seq<string>) returns (st: Cursors)
      ensures st == Saved(m, slaves)
    {
      st := map[];
      var todo := m.Keys;
      while todo != {}
        invariant todo <= m.Keys
        invariant st == map slave | slave in m && slave !in todo && slave in slaves && |m[slave]| > 0 :: m[slave]
        decreases todo
      {
        var slave :| slave in todo;
        todo := todo - {slave};
        if slave in slaves && |m[slave]| > 0 {
          st := st[slave := m[slave]];
        }
      }
    }
  }
}
