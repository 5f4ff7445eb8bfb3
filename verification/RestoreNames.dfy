/** Which files a restore accepts as a backup of its destination, by the parts of their names. */
module RestoreNames {
  import opened Basics
  import opened RestoreSteps
  import Text

  /** A snapshot taken before a migration: the destination's name, the mark, any stamp, and the ending. */
  ghost predicate IsSnapshotOf(dest: string, backup: string) {
    exists stamp :: backup == SnapshotName(dest, stamp)
  }

  function SnapshotName(dest: string, stamp: string): string {
    dest + ".pre-migration-" + stamp + ".bak"
  }

  /** `stem` is the name without its extension; a leading dot begins no extension. */
  predicate IsStemOf(stem: string, name: string) {
    || (name == stem && forall i | 0 < i < |name| :: name[i] != '.')
    || (stem != "" && |name| > |stem| && name[..|stem|] == stem && name[|stem|] == '.'
        && forall i | |stem| < i < |name| :: name[i] != '.')
  }

  lemma SnapshotsAreNamed(dest: string, backup: string)
    ensures IsPreMigrationName(dest, backup) <==> IsSnapshotOf(dest, backup)
  {
    var mark := dest + ".pre-migration-";
    if IsPreMigrationName(dest, backup) {
      MarkAndEndingAreApart(dest, backup);
      var stamp := backup[|mark|..|backup| - 4];
      assert backup == backup[..|mark|] + stamp + backup[|backup| - 4..];
      assert backup == SnapshotName(dest, stamp);
    }
    if IsSnapshotOf(dest, backup) {
      var stamp :| backup == SnapshotName(dest, stamp);
      assert backup == mark + (stamp + ".bak");
      assert backup[|backup| - 4..] == ".bak";
    }
  }

  /** The mark ends in a dash, which the ending does not hold: the two never overlap. */
  lemma MarkAndEndingAreApart(dest: string, backup: string)
    requires IsPreMigrationName(dest, backup)
    ensures |backup| >= |dest + ".pre-migration-"| + 4
  {
    var mark := dest + ".pre-migration-";
    var n, m := |backup|, |mark|;
    assert backup[m - 1] == mark[m - 1] == '-';
    assert forall i | 0 <= i < 4 :: backup[n - 4 + i] == ".bak"[i];
    assert forall i | 0 <= i < 4 :: ".bak"[i] != '-';
    assert !(n - 4 <= m - 1 < n);
  }

  lemma {:induction false} StemsAreFound(name: string)
    ensures IsStemOf(FileStem(name), name)
  {
    if HasExtension(name) && name[|name| - 1] != '.' {
      var front := name[..|name| - 1];
      assert HasExtension(front) by {
        var i :| 0 < i < |name| && name[i] == '.';
        assert front[i] == '.';
      }
      StemsAreFound(front);
    }
  }

  lemma StemsAreUnique(a: string, b: string, name: string)
    requires IsStemOf(a, name) && IsStemOf(b, name)
    ensures a == b
  {
    if |a| < |name| && |b| < |name| {
      assert |a| == |b|;
      assert a == name[..|a|] && b == name[..|b|];
    }
  }

  /**
   A restore is let through exactly if both paths name a file, they differ, and the backup is a snapshot of the
   destination from before a migration or, where that is allowed, the updater's: the destination's stem with the
   extension `update-backup`.
   */
  lemma BackupsAreAcceptedExactly(dest: Path, request: Request)
    ensures Refusal(dest, request) == None <==>
              && dest.name != "" && request.backup.name != ""
              && request.backup != dest
              && (|| IsSnapshotOf(dest.name, request.backup.name)
                  || (request.updateBackupToo
                      && exists stem :: IsStemOf(stem, dest.name) && request.backup.name == stem + ".update-backup"))
  {
    SnapshotsAreNamed(dest.name, request.backup.name);
    StemsAreFound(dest.name);
    forall stem | IsStemOf(stem, dest.name) ensures stem == FileStem(dest.name) {
      StemsAreUnique(stem, FileStem(dest.name), dest.name);
    }
    hide IsPreMigrationName, IsSnapshotOf, IsStemOf, FileStem;
  }

  lemma DashesSplit(a: string, b: string, c: string, d: string)
    requires '-' !in a && '-' !in c && a + "-" + b == c + "-" + d
    ensures a == c && b == d
  {
    var s := a + "-" + b;
    assert s[|a|] == '-' && s[|c|] == '-';
    assert forall i | 0 <= i < |a| :: a[i] in a && s[i] == a[i];
    assert forall i | 0 <= i < |c| :: c[i] in c && s[i] == c[i];
    assert a == s[..|a|] && c == s[..|c|];
    assert b == s[|a| + 1..] && d == s[|c| + 1..];
  }

  lemma DecimalsHaveNoDash(n: nat)
    ensures '-' !in Text.Decimal(n)
  {
    Text.DecimalReadsBack(n);
  }

  /** Every process and slot has a temporary file of its own: the 32 slots are 32 files. */
  lemma SlotsAreApart(dest: Path, pid: nat, slot: nat, pid': nat, slot': nat)
    requires TempPath(dest, pid, slot) == TempPath(dest, pid', slot')
    ensures pid == pid' && slot == slot'
  {
    var mark := dest.name + ".restore-tmp-";
    var left, right := Text.Decimal(pid) + "-" + Text.Decimal(slot), Text.Decimal(pid') + "-" + Text.Decimal(slot');
    DecimalsHaveNoDash(pid);
    DecimalsHaveNoDash(pid');
    Text.DecimalReadsBack(pid);
    Text.DecimalReadsBack(pid');
    Text.DecimalReadsBack(slot);
    Text.DecimalReadsBack(slot');
    hide Text.Decimal, Text.DigitsValue;
    assert TempPath(dest, pid, slot).name == mark + left && TempPath(dest, pid', slot').name == mark + right;
    assert left == (mark + left)[|mark|..] && right == (mark + right)[|mark|..];
    DashesSplit(Text.Decimal(pid), Text.Decimal(slot), Text.Decimal(pid'), Text.Decimal(slot'));
  }

  /** Why a restore is refused before any file is touched. */
  lemma RefusalsNameTheirCause(dest: Path, request: Request)
    ensures Refusal(dest, request) == Some(NoFileName) <==> dest.name == "" || request.backup.name == ""
    ensures Refusal(dest, request) == Some(DestinationIsBackup) <==>
              dest.name != "" && request.backup.name != "" && request.backup == dest
  {}
}
