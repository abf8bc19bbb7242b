/**
 * The string logic of the installer: finding the `app/` folder among the entry names of
 * the downloaded archive, selecting the entries under it with their relative paths, and the
 * percentage the progress bar shows for a step message.
 */
module Installer {
  import opened Outcome

  // ---------------------------------------------------------------- strings

  predicate HasPrefix(s: string, p: string) {
    |p| <= |s| && s[..|p|] == p
  }

  predicate HasSuffix(s: string, p: string) {
    |p| <= |s| && s[|s| - |p|..] == p
  }

  /** Whether pat occurs in s at position j. */
  predicate OccursAt(s: string, pat: string, j: int) {
    0 <= j && j + |pat| <= |s| && s[j..j + |pat|] == pat
  }

  /** The first position at or after k where pat occurs in s. */
  function FindFrom(s: string, pat: string, k: nat): (r: Option<nat>)
    ensures r.Some? ==> k <= r.value && OccursAt(s, pat, r.value)
    ensures r.Some? ==> forall j | k <= j < r.value :: !OccursAt(s, pat, j)
    ensures r.None? ==> forall j | k <= j :: !OccursAt(s, pat, j)
    decreases |s| - k
  {
    if k + |pat| > |s| then None
    else if s[k..k + |pat|] == pat then Some(k)
    else FindFrom(s, pat, k + 1)
  }

  /** `s.find(pat)`: the first occurrence of pat in s, if any. */
  function IndexOf(s: string, pat: string): Option<nat> {
    FindFrom(s, pat, 0)
  }

  /** `pat in s`. */
  predicate Contains(s: string, pat: string) {
    exists j | 0 <= j <= |s| :: OccursAt(s, pat, j)
  }

  lemma IndexOfFindsContains(s: string, pat: string)
    ensures IndexOf(s, pat).Some? <==> Contains(s, pat)
  {
    if IndexOf(s, pat).Some? {
      assert OccursAt(s, pat, IndexOf(s, pat).value);
    }
  }

  // ---------------------------------------------------------------- discovery

  const AppMarker: string := "/app/"
  const AppSuffix: string := "app/"

  /**
   * The folder one entry names, if it qualifies: for an entry containing `/app/`, the text
   * before the first `/app/` followed by `/app/` (`name.split('/app/')[0] + '/app/'`);
   * otherwise the entry itself when it ends with `app/`.
   */
  function FolderOf(name: string): Option<string> {
    match IndexOf(name, AppMarker)
    case Some(i) => Some(name[..i] + AppMarker)
    case None => if HasSuffix(name, AppSuffix) then Some(name) else None
  }

  /** The folder an entry names is a prefix of the entry and ends with `app/`. */
  lemma FolderOfIsPrefix(name: string)
    requires FolderOf(name).Some?
    ensures HasPrefix(name, FolderOf(name).value)
    ensures HasSuffix(FolderOf(name).value, AppSuffix)
    ensures FolderOf(name).value != []
  {
    var f := FolderOf(name).value;
    match IndexOf(name, AppMarker)
    case Some(i) =>
      assert name[i..i + 5] == AppMarker;
      assert f == name[..i + 5];
      assert f[|f| - 4..] == name[i + 1..i + 5];
    case None =>
  }

  /**
   * Containment of `/app/` decides before the suffix test: an entry containing it names
   * the folder up to its first `/app/`, whatever it ends with.
   */
  lemma MarkerTakesPrecedence(name: string)
    requires Contains(name, AppMarker)
    ensures IndexOf(name, AppMarker).Some?
    ensures FolderOf(name) == Some(name[..IndexOf(name, AppMarker).value] + AppMarker)
  {
    IndexOfFindsContains(name, AppMarker);
  }

  /** Whether some entry before position k qualifies. */
  predicate QualifiesBefore(names: seq<string>, k: int) {
    exists j | 0 <= j < k && j < |names| :: FolderOf(names[j]).Some?
  }

  /**
   * The discovery loop: the folder named by the first qualifying entry; the error
   * "Dossier 'app' introuvable" when no entry qualifies.
   */
  method FindAppFolder(names: seq<string>) returns (r: Result<string>)
    ensures r.Ok? <==> QualifiesBefore(names, |names|)
    ensures r.Err? ==> r.error == AppFolderNotFound
    ensures r.Ok? ==> exists i | 0 <= i < |names| ::
              && FolderOf(names[i]) == Some(r.value)
              && !QualifiesBefore(names, i)
              && HasPrefix(names[i], r.value)
    ensures r.Ok? ==> r.value != [] && HasSuffix(r.value, AppSuffix)
  {
    var folder: Option<string> := None;
    var i := 0;
    while i < |names|
      invariant 0 <= i <= |names|
      invariant folder.None? ==> !QualifiesBefore(names, i)
      invariant folder.Some? ==> exists k | 0 <= k < |names| ::
                  FolderOf(names[k]) == Some(folder.value) && !QualifiesBefore(names, k)
      invariant folder.Some? ==> QualifiesBefore(names, |names|)
    {
      var idx := IndexOf(names[i], AppMarker);
      if idx.Some? {
        folder := Some(names[i][..idx.value] + AppMarker);
        break;
      }
      if HasSuffix(names[i], AppSuffix) {
        folder := Some(names[i]);
        break;
      }
      i := i + 1;
    }
    match folder
    case None =>
      r := Err(AppFolderNotFound);
    case Some(f) =>
      var k :| 0 <= k < |names| && FolderOf(names[k]) == Some(f) && !QualifiesBefore(names, k);
      FolderOfIsPrefix(names[k]);
      r := Ok(f);
  }

  // ---------------------------------------------------------------- selection

  /** An entry to extract: its archive name, its path relative to the folder, and whether it is a directory. */
  datatype Extract = Extract(name: string, rel: string, isDir: bool)

  /** Whether an entry lies strictly below the folder. */
  predicate Below(name: string, folder: string) {
    HasPrefix(name, folder) && |name| > |folder|
  }

  /**
   * The entries extracted, in archive order: those strictly below the folder whose
   * destination stays inside the install directory (`inside`, the normalised-path test,
   * applied to the relative path).
   */
  function Selected(names: seq<string>, folder: string, inside: string -> bool): (sel: seq<Extract>)
    ensures |sel| <= |names|
    ensures forall e | e in sel :: folder + e.rel == e.name && e.rel != [] && e.name in names
    ensures forall e | e in sel :: e.isDir == HasSuffix(e.name, "/") && inside(e.rel)
    ensures forall n | n in names && Below(n, folder) && inside(n[|folder|..]) ::
              exists e | e in sel :: e.name == n
  {
    if names == [] then []
    else
      var p := names[..|names| - 1];
      var n := names[|names| - 1];
      var rest := Selected(p, folder, inside);
      assert forall m | m in p :: m in names;
      if Below(n, folder) && inside(n[|folder|..]) then
        var e := Extract(n, n[|folder|..], HasSuffix(n, "/"));
        assert folder + e.rel == n by {
          assert n[..|folder|] == folder;
          assert n == n[..|folder|] + n[|folder|..];
        }
        rest + [e]
      else rest
  }

  /** Each selected entry is the folder followed by a non-empty relative path. */
  lemma SelectedReassembles(names: seq<string>, folder: string, inside: string -> bool, e: Extract)
    requires e in Selected(names, folder, inside)
    ensures HasPrefix(e.name, folder) && e.name[|folder|..] == e.rel && e.rel != []
  {
    assert (folder + e.rel)[..|folder|] == folder;
    assert (folder + e.rel)[|folder|..] == e.rel;
  }

  /** An entry not strictly below the folder is never extracted. */
  lemma {:induction false} SelectedOnlyBelow(names: seq<string>, folder: string, inside: string -> bool, n: string)
    requires !Below(n, folder)
    ensures forall e | e in Selected(names, folder, inside) :: e.name != n
  {
    forall e | e in Selected(names, folder, inside)
      ensures e.name != n
    {
      SelectedReassembles(names, folder, inside, e);
    }
  }

  /** The archive positions of the entries Selected keeps, in archive order. */
  function SelectedPositions(names: seq<string>, folder: string, inside: string -> bool): seq<int> {
    if names == [] then []
    else
      var n := names[|names| - 1];
      SelectedPositions(names[..|names| - 1], folder, inside)
        + (if Below(n, folder) && inside(n[|folder|..]) then [|names| - 1] else [])
  }

  /** Qualifying positions strictly increase, lie in the archive, and are exactly the qualifying ones. */
  lemma {:induction false} SelectedPositionsExact(names: seq<string>, folder: string, inside: string -> bool)
    ensures forall k | 0 <= k < |SelectedPositions(names, folder, inside)| ::
              0 <= SelectedPositions(names, folder, inside)[k] < |names|
    ensures forall k, l | 0 <= k < l < |SelectedPositions(names, folder, inside)| ::
              SelectedPositions(names, folder, inside)[k] < SelectedPositions(names, folder, inside)[l]
    ensures forall i | 0 <= i < |names| ::
              i in SelectedPositions(names, folder, inside) <==> Below(names[i], folder) && inside(names[i][|folder|..])
  {
    if names != [] {
      var p, n := names[..|names| - 1], names[|names| - 1];
      SelectedPositionsExact(p, folder, inside);
      var ip, ix := SelectedPositions(p, folder, inside), SelectedPositions(names, folder, inside);
      if Below(n, folder) && inside(n[|folder|..]) {
        assert ix == ip + [|p|];
        forall k, l | 0 <= k < l < |ix| ensures ix[k] < ix[l] {
          assert ix[k] == ip[k];
          if l < |ip| {
            assert ix[l] == ip[l];
          }
        }
      } else {
        assert ix == ip;
      }
      forall i | 0 <= i < |names| ensures i in ix <==> Below(names[i], folder) && inside(names[i][|folder|..]) {
        if i < |p| {
          assert names[i] == p[i];
          assert i in ix <==> i in ip;
        }
      }
    }
  }

  /**
   * The k-th selected entry is the archive entry at the k-th qualifying position; with
   * SelectedPositionsExact, the selection keeps archive order and each qualifying entry
   * once per occurrence.
   */
  lemma {:induction false} SelectedPositionsNames(names: seq<string>, folder: string, inside: string -> bool)
    ensures |SelectedPositions(names, folder, inside)| == |Selected(names, folder, inside)|
    ensures forall k | 0 <= k < |SelectedPositions(names, folder, inside)| ::
              0 <= SelectedPositions(names, folder, inside)[k] < |names|
              && names[SelectedPositions(names, folder, inside)[k]] == Selected(names, folder, inside)[k].name
  {
    if names != [] {
      var p, n := names[..|names| - 1], names[|names| - 1];
      SelectedPositionsNames(p, folder, inside);
      var ip, sp := SelectedPositions(p, folder, inside), Selected(p, folder, inside);
      var ix, sel := SelectedPositions(names, folder, inside), Selected(names, folder, inside);
      if Below(n, folder) && inside(n[|folder|..]) {
        assert ix == ip + [|p|];
        assert sel == sp + [Extract(n, n[|folder|..], HasSuffix(n, "/"))];
      } else {
        assert ix == ip && sel == sp;
      }
      forall k | 0 <= k < |ix| ensures 0 <= ix[k] < |names| && names[ix[k]] == sel[k].name {
        if k < |ip| {
          assert ix[k] == ip[k] && sel[k] == sp[k];
          assert names[ip[k]] == p[ip[k]];
        }
      }
    }
  }

  /** The selection loop of the extraction, with its two `continue`s and the zip-slip skip. */
  method SelectEntries(names: seq<string>, folder: string, inside: string -> bool) returns (sel: seq<Extract>)
    ensures sel == Selected(names, folder, inside)
  {
    sel := [];
    var i := 0;
    while i < |names|
      invariant 0 <= i <= |names|
      invariant sel == Selected(names[..i], folder, inside)
    {
      var name := names[i];
      assert names[..i + 1][..i] == names[..i];
      if !HasPrefix(name, folder) {
        i := i + 1;
        continue;
      }
      var rel := name[|folder|..];
      if rel == [] {
        i := i + 1;
        continue;
      }
      if !inside(rel) {
        i := i + 1;
        continue;
      }
      sel := sel + [Extract(name, rel, HasSuffix(name, "/"))];
      i := i + 1;
    }
    assert names[..|names|] == names;
  }

  // ---------------------------------------------------------------- progress

  /** The step messages of the installation, in order. */
  const Steps: seq<string> := [
    "Vérification de Python...",
    "Téléchargement du code source...",
    "Installation des dépendances...",
    "Création du raccourci sur le bureau...",
    "Installation terminée !"
  ]

  /** `steps.index(msg)`: the first position of msg. */
  function FirstIndex(steps: seq<string>, msg: string): (i: nat)
    requires msg in steps
    ensures i < |steps| && steps[i] == msg
    ensures forall j | 0 <= j < i :: steps[j] != msg
  {
    if steps[0] == msg then 0 else 1 + FirstIndex(steps[1..], msg)
  }

  /**
   * `progress_callback`'s percentage: `(idx + 1) * 100 // len(steps)`, where an unknown
   * message counts as the last step.
   */
  function Percent(steps: seq<string>, msg: string): (p: int)
    requires steps != []
    ensures 100 / |steps| <= p <= 100
    ensures msg !in steps ==> p == 100
  {
    var idx := if msg in steps then FirstIndex(steps, msg) else |steps| - 1;
    assert 1 <= idx + 1 <= |steps|;
    PercentInRange(idx + 1, |steps|);
    (idx + 1) * 100 / |steps|
  }

  lemma PercentInRange(k: int, n: int)
    requires 1 <= k <= n
    ensures 100 / n <= k * 100 / n <= 100
  {
    assert k * 100 <= n * 100;
    assert 100 <= k * 100;
    DivMonotone(100, k * 100, n);
    DivMonotone(k * 100, n * 100, n);
  }

  lemma DivMonotone(a: int, b: int, n: int)
    requires 0 <= a <= b && n > 0
    ensures a / n <= b / n
  {
    var qa, qb := a / n, b / n;
    assert n * qa + a % n == a && n * qb + b % n == b;
    assert n * qa - n * qb == n * (qa - qb);
    if qa > qb {
      MulAtLeast(n, qa - qb);
      assert false;
    }
  }

  lemma MulAtLeast(n: int, d: int)
    requires n > 0 && d >= 1
    ensures n * d >= n
  {
  }

  lemma StepsDistinct()
    ensures forall i, j | 0 <= i < j < |Steps| :: Steps[i] != Steps[j]
  {
    assert Steps[0][0] == 'V' && Steps[1][0] == 'T' && Steps[2][0] == 'I' && Steps[3][0] == 'C' && Steps[4][0] == 'I';
    assert |Steps[2]| != |Steps[4]|;
  }

  /** The step at index i shows (i + 1) * 20 percent: 20, 40, 60, 80, 100. */
  lemma StepPercent(i: int)
    requires 0 <= i < |Steps|
    ensures Percent(Steps, Steps[i]) == (i + 1) * 20
    ensures 20 <= Percent(Steps, Steps[i]) <= 100
  {
    StepsDistinct();
    assert FirstIndex(Steps, Steps[i]) == i;
  }

  /** The bar only moves forward along the steps. */
  lemma StepPercentIncreasing(i: int, j: int)
    requires 0 <= i < j < |Steps|
    ensures Percent(Steps, Steps[i]) < Percent(Steps, Steps[j])
  {
    StepPercent(i);
    StepPercent(j);
  }

  /** The progress bar and status line of the installer window. */
  class InstallerWindow {
    /** `self.progress["value"]`. */
    var progress: int
    /** The text of the status label. */
    var status: string

    constructor ()
      ensures progress == 0 && status == "Prêt à installer."
    {
      progress, status := 0, "Prêt à installer.";
    }

    /** `start_install`: the bar is reset before the installation runs. */
    method StartInstall()
      modifies this
      ensures progress == 0 && status == old(status)
    {
      progress := 0;
    }

    /** `progress_callback`: the bar shows the percentage of the message, the status the message. */
    method ProgressCallback(msg: string)
      modifies this
      ensures progress == Percent(Steps, msg) && status == msg
      ensures 20 <= progress <= 100
    {
      progress := Percent(Steps, msg);
      status := msg;
    }

    /** The end of the installation task: the bar is full and the status is the final message. */
    method FinishInstall(msg: string)
      modifies this
      ensures progress == 100 && status == msg
    {
      progress := 100;
      status := msg;
    }
  }
}
