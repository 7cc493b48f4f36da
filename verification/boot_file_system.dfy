/**
 A file system in which writes reach the disk late, as far as the boot-restore file
 sees it: inodes whose data may not be on disk yet, and a directory whose entry for
 the target may lag behind renames.
 */
module BootFileSystem {
  import opened Prelude

  type Content = string

  /** `mem` is what a read returns, `disk` what a power cut leaves. They agree once the
      inode is `clean`; before that `disk` can hold anything. */
  datatype Inode = Inode(mem: Content, disk: Content, clean: bool)

  /** `entries` lists the values the target's directory entry has taken since the one the
      disk holds: the first is on disk, the last is visible. `tmp` is the visible entry of
      the temporary name, which the boot include does not read. Inode numbers from `next`
      on are unused. */
  datatype Fs = Fs(inodes: map<nat, Inode>, next: nat, entries: seq<Option<nat>>, tmp: Option<nat>)

  ghost predicate WellFormed(fs: Fs) {
    && fs.entries != []
    && (forall i :: i in fs.inodes ==> i < fs.next)
    && (forall e :: e in fs.entries && e.Some? ==> e.value in fs.inodes)
    && (fs.tmp.Some? ==> fs.tmp.value in fs.inodes && fs.tmp !in fs.entries)
    && (forall i :: i in fs.inodes && fs.inodes[i].clean ==> fs.inodes[i].disk == fs.inodes[i].mem)
  }

  function Visible(fs: Fs): Option<nat>
    requires fs.entries != []
  {
    fs.entries[|fs.entries| - 1]
  }

  /** What a read of the target gives, absent when the file is. */
  function VisibleContent(fs: Fs): Option<Content>
    requires fs.entries != []
  {
    var e := Visible(fs);
    if e.Some? && e.value in fs.inodes then Some(fs.inodes[e.value].mem) else None
  }

  /** What the boot reads when the power is cut now. */
  function AtBoot(fs: Fs): Option<Content>
    requires fs.entries != []
  {
    var e := fs.entries[0];
    if e.Some? && e.value in fs.inodes then Some(fs.inodes[e.value].disk) else None
  }

  /** Some of the last elements of `a`, the very last among them. */
  predicate TailOf<T(==)>(b: seq<T>, a: seq<T>) {
    0 < |b| <= |a| && b == a[|a| - |b|..]
  }

  lemma TailOfTail<T>(a: seq<T>, b: seq<T>, c: seq<T>)
    requires TailOf(b, a) && TailOf(c, b)
    ensures TailOf(c, a) && forall x :: x in c ==> x in b
  {
  }

  /** Write-back: directory changes reach the disk in order, and data that is not synced
      yet reaches it in any state at all. */
  predicate Background(a: Fs, b: Fs) {
    && TailOf(b.entries, a.entries)
    && b.tmp == a.tmp && b.next == a.next
    && b.inodes.Keys == a.inodes.Keys
    && forall i :: i in a.inodes ==> b.inodes[i] == a.inodes[i] || WrittenBack(a.inodes[i], b.inodes[i])
  }

  predicate WrittenBack(a: Inode, b: Inode) {
    !a.clean && !b.clean && b.mem == a.mem
  }

  lemma BackgroundStutters(fs: Fs)
    requires fs.entries != []
    ensures Background(fs, fs)
  {
    assert fs.entries == fs.entries[0..];
  }

  /** What a power cut leaves: the directory and the data as they are on disk. */
  function AfterCrash(fs: Fs): Fs
    requires fs.entries != []
  {
    Fs(map i | i in fs.inodes :: Inode(fs.inodes[i].disk, fs.inodes[i].disk, true), fs.next, [fs.entries[0]], None)
  }

  /** A machine that comes back has one settled file, the one its boot read. */
  lemma CrashSettles(fs: Fs)
    requires WellFormed(fs)
    ensures WellFormed(AfterCrash(fs)) && |AfterCrash(fs).entries| == 1
    ensures VisibleContent(AfterCrash(fs)) == AtBoot(fs) == AtBoot(AfterCrash(fs))
  {
  }

  // ---- system calls --------------------------------------------------------

  function SetInode(fs: Fs, i: nat, n: Inode): Fs {
    fs.(inodes := fs.inodes[i := n])
  }

  /** open(tmp, O_CREATE|O_TRUNC): an existing file is emptied, otherwise a new inode. */
  function OpenTmp(fs: Fs): Fs {
    if fs.tmp.Some? && fs.tmp.value in fs.inodes then
      SetInode(fs, fs.tmp.value, Inode("", fs.inodes[fs.tmp.value].disk, false))
    else
      SetInode(fs, fs.next, Inode("", "", false)).(next := fs.next + 1, tmp := Some(fs.next))
  }

  /** write(tmp): the whole content, or on failure some other text. */
  function WriteTmp(fs: Fs, c: Content): Fs {
    if fs.tmp.Some? && fs.tmp.value in fs.inodes then
      SetInode(fs, fs.tmp.value, Inode(c, fs.inodes[fs.tmp.value].disk, false))
    else fs
  }

  function SyncInode(fs: Fs, e: Option<nat>): Fs {
    if e.Some? && e.value in fs.inodes then
      SetInode(fs, e.value, Inode(fs.inodes[e.value].mem, fs.inodes[e.value].mem, true))
    else fs
  }

  function RenameTmp(fs: Fs): Fs {
    fs.(entries := fs.entries + [fs.tmp], tmp := None)
  }

  function RemoveTmp(fs: Fs): Fs {
    fs.(tmp := None)
  }

  function SyncDir(fs: Fs): Fs
    requires fs.entries != []
  {
    fs.(entries := [Visible(fs)])
  }

  // ---- what must hold ------------------------------------------------------

  predicate Holds(fs: Fs, e: Option<nat>, want: Content) {
    e.Some? && e.value in fs.inodes && fs.inodes[e.value].clean && fs.inodes[e.value].mem == want
  }

  /** Whatever the disk catches up with, the boot reads `want`. */
  ghost predicate Durable(fs: Fs, want: Content) {
    forall e :: e in fs.entries ==> Holds(fs, e, want)
  }

  /** `Durable` means what it says: after any write-back a power cut leaves `want`, and
      if a power cut is sure to leave `want` under any write-back then it holds. */
  lemma DurableSurvives(fs: Fs, later: Fs, want: Content)
    requires WellFormed(fs) && Durable(fs, want) && Background(fs, later)
    ensures Durable(later, want) && AtBoot(later) == Some(want)
  {
    forall e | e in later.entries ensures Holds(later, e, want) {
      assert e in fs.entries;
    }
    assert later.entries[0] in fs.entries;
    assert Holds(later, later.entries[0], want);
    var i := later.entries[0].value;
    assert later.inodes[i] == fs.inodes[i];
  }

  /** `fs` with the disk caught up as far as entry `k`. */
  function CaughtUp(fs: Fs, k: nat): Fs
    requires k < |fs.entries|
  {
    fs.(entries := fs.entries[k..])
  }

  /** A file that is not durable can be lost: some write-back and a power cut leave other
      content than `want`. */
  lemma NotDurableCanBeLost(fs: Fs, want: Content) returns (later: Fs)
    requires WellFormed(fs) && !Durable(fs, want)
    ensures Background(fs, later) && AtBoot(later) != Some(want)
  {
    var e :| e in fs.entries && !Holds(fs, e, want);
    var k :| 0 <= k < |fs.entries| && fs.entries[k] == e;
    later := CaughtUp(fs, k);
    if e.Some? && !fs.inodes[e.value].clean {
      var n := fs.inodes[e.value];
      var torn := n.(disk := want + "#");
      later := SetInode(later, e.value, torn);
      assert torn.disk != want;
    }
  }

  /** The entry is one that was there at the start, or a finished file asked for since. */
  predicate EntrySound(fs: Fs, e: Option<nat>, start: Fs, asked: set<Content>) {
    e in start.entries || exists c :: c in asked && Holds(fs, e, c)
  }

  /** The files the start had are still what they were; a synced one exactly. */
  ghost predicate StartKept(fs: Fs, start: Fs) {
    forall e :: e in start.entries && e.Some? && e.value in start.inodes ==>
      && e.value in fs.inodes
      && fs.inodes[e.value].mem == start.inodes[e.value].mem
      && (start.inodes[e.value].clean ==> fs.inodes[e.value] == start.inodes[e.value])
  }

  ghost predicate Sound(fs: Fs, start: Fs, asked: set<Content>) {
    && WellFormed(start) && WellFormed(fs) && start.next <= fs.next
    && StartKept(fs, start)
    && (fs.tmp.Some? ==> fs.tmp !in start.entries)
    && forall e :: e in fs.entries ==> EntrySound(fs, e, start, asked)
  }

  /** The boot reads a complete content: one asked for, or what was there at the start. */
  ghost predicate BootsWhole(fs: Fs, start: Fs, asked: set<Content>)
    requires fs.entries != []
  {
    var boot := AtBoot(fs);
    || (boot.Some? && boot.value in asked)
    || exists e :: e in start.entries && fs.entries[0] == e && BootsAsBefore(boot, start, e)
  }

  /** The start's own entry: no file, or its content, which is known when it was synced. */
  predicate BootsAsBefore(boot: Option<Content>, start: Fs, e: Option<nat>) {
    if e.None? then boot.None?
    else e.value in start.inodes && boot.Some? &&
         (start.inodes[e.value].clean ==> boot.value == start.inodes[e.value].mem)
  }

  lemma SoundBootsWhole(fs: Fs, start: Fs, asked: set<Content>)
    requires Sound(fs, start, asked)
    ensures BootsWhole(fs, start, asked)
  {
    var e := fs.entries[0];
    assert e in fs.entries && EntrySound(fs, e, start, asked);
    if e in start.entries {
      assert BootsAsBefore(AtBoot(fs), start, e);
    }
  }

  // ---- every step keeps it -------------------------------------------------

  lemma SoundBackground(a: Fs, b: Fs, start: Fs, asked: set<Content>)
    requires Sound(a, start, asked) && Background(a, b)
    ensures Sound(b, start, asked) && Visible(b) == Visible(a) && VisibleContent(b) == VisibleContent(a)
  {
    forall e | e in b.entries ensures EntrySound(b, e, start, asked) {
      assert e in a.entries && EntrySound(a, e, start, asked);
      if e !in start.entries {
        var c :| c in asked && Holds(a, e, c);
        assert Holds(b, e, c);
      }
    }
  }

  /** Changing an inode no entry names. */
  lemma SoundSetInode(a: Fs, b: Fs, i: nat, start: Fs, asked: set<Content>)
    requires Sound(a, start, asked)
    requires Some(i) !in a.entries && Some(i) !in start.entries
    requires b.inodes.Keys == a.inodes.Keys + {i} && (forall j :: j in a.inodes && j != i ==> b.inodes[j] == a.inodes[j])
    requires b.inodes[i].clean ==> b.inodes[i].disk == b.inodes[i].mem
    requires b.entries == a.entries && b.tmp == Some(i) && a.next <= b.next && i < b.next
    ensures Sound(b, start, asked)
  {
    forall e | e in b.entries ensures EntrySound(b, e, start, asked) {
      assert EntrySound(a, e, start, asked);
      if e !in start.entries {
        var c :| c in asked && Holds(a, e, c);
        assert Holds(b, e, c);
      }
    }
  }

  lemma SoundOpenTmp(fs: Fs, start: Fs, asked: set<Content>)
    requires Sound(fs, start, asked)
    ensures Sound(OpenTmp(fs), start, asked) && OpenTmp(fs).tmp.Some?
  {
    var i := if fs.tmp.Some? then fs.tmp.value else fs.next;
    SoundSetInode(fs, OpenTmp(fs), i, start, asked);
  }

  lemma SoundWriteTmp(fs: Fs, c: Content, start: Fs, asked: set<Content>)
    requires Sound(fs, start, asked) && fs.tmp.Some?
    ensures Sound(WriteTmp(fs, c), start, asked)
  {
    SoundSetInode(fs, WriteTmp(fs, c), fs.tmp.value, start, asked);
  }

  lemma SoundSyncTmp(fs: Fs, start: Fs, asked: set<Content>)
    requires Sound(fs, start, asked) && fs.tmp.Some?
    ensures Sound(SyncInode(fs, fs.tmp), start, asked)
  {
    SoundSetInode(fs, SyncInode(fs, fs.tmp), fs.tmp.value, start, asked);
  }

  lemma SoundSyncTarget(fs: Fs, start: Fs, asked: set<Content>)
    requires Sound(fs, start, asked)
    ensures Sound(SyncInode(fs, Visible(fs)), start, asked)
  {
    var b := SyncInode(fs, Visible(fs));
    forall e | e in b.entries ensures EntrySound(b, e, start, asked) {
      assert EntrySound(fs, e, start, asked);
      if e !in start.entries {
        var c :| c in asked && Holds(fs, e, c);
        assert Holds(b, e, c);
      }
    }
  }

  lemma SoundRename(fs: Fs, start: Fs, asked: set<Content>, c: Content)
    requires Sound(fs, start, asked) && c in asked && Holds(fs, fs.tmp, c)
    ensures Sound(RenameTmp(fs), start, asked)
  {
    var b := RenameTmp(fs);
    forall e | e in b.entries ensures EntrySound(b, e, start, asked) {
      if e in fs.entries {
        assert EntrySound(fs, e, start, asked);
        if e !in start.entries {
          var d :| d in asked && Holds(fs, e, d);
          assert Holds(b, e, d);
        }
      } else {
        assert Holds(b, e, c);
      }
    }
  }

  lemma SoundRemove(fs: Fs, start: Fs, asked: set<Content>)
    requires Sound(fs, start, asked)
    ensures Sound(RemoveTmp(fs), start, asked)
  {
    SoundEntries(fs, RemoveTmp(fs), start, asked);
  }

  lemma SoundSyncDir(fs: Fs, start: Fs, asked: set<Content>)
    requires Sound(fs, start, asked)
    ensures Sound(SyncDir(fs), start, asked)
  {
    SoundEntries(fs, SyncDir(fs), start, asked);
  }

  /** Dropping entries, or the temporary name. */
  lemma SoundEntries(a: Fs, b: Fs, start: Fs, asked: set<Content>)
    requires Sound(a, start, asked) && b.inodes == a.inodes && b.next == a.next
    requires b.tmp == a.tmp || b.tmp.None?
    requires b.entries != [] && forall e :: e in b.entries ==> e in a.entries
    ensures Sound(b, start, asked)
  {
    forall e | e in b.entries ensures EntrySound(b, e, start, asked) {
      assert EntrySound(a, e, start, asked);
      if e !in start.entries {
        var c :| c in asked && Holds(a, e, c);
        assert Holds(b, e, c);
      }
    }
  }

  lemma SoundAsked(fs: Fs, start: Fs, asked: set<Content>, more: set<Content>)
    requires Sound(fs, start, asked) && asked <= more
    ensures Sound(fs, start, more)
  {
    forall e | e in fs.entries ensures EntrySound(fs, e, start, more) {
      assert EntrySound(fs, e, start, asked);
    }
  }
}
