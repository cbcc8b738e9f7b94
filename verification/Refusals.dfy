/** Which versions and trees the stamper refuses, and what a completed stamp leaves in each file. */
module Refusals {
  import opened Outcomes
  import opened Stamp
  import opened StampProofs

  // ---- versions -------------------------------------------------------------------------

  /** One or more ASCII digits. */
  predicate Numeral(s: string) {
    |s| > 0 && forall i :: 0 <= i < |s| ==> '0' <= s[i] <= '9'
  }

  predicate Spells(s: string, major: string, minor: string, patch: string) {
    Numeral(major) && Numeral(minor) && Numeral(patch) && s == major + "." + minor + "." + patch
  }

  ghost predicate ThreeNumbers(s: string) {
    exists major, minor, patch :: Spells(s, major, minor, patch)
  }

  lemma {:induction false} DigitRunDigits(s: string)
    ensures forall i :: 0 <= i < DigitRun(s) ==> '0' <= s[i] <= '9'
  {
    if |s| > 0 && IsDigit(s[0]) {
      DigitRunDigits(s[1..]);
      assert forall i :: 0 < i < |s| ==> s[i] == s[1..][i - 1];
    }
  }

  lemma {:induction false} DigitRunIs(digits: string, rest: string)
    requires forall i :: 0 <= i < |digits| ==> '0' <= digits[i] <= '9'
    requires rest == "" || !('0' <= rest[0] <= '9')
    ensures DigitRun(digits + rest) == |digits|
  {
    var s := digits + rest;
    if |digits| > 0 {
      assert s[0] == digits[0] && s[1..] == digits[1..] + rest;
      DigitRunIs(digits[1..], rest);
    } else {
      assert s == rest;
    }
  }

  lemma VersionSpelled(s: string, major: string, minor: string, patch: string)
    requires Spells(s, major, minor, patch)
    ensures IsVersion(s)
  {
    var behind, last := "." + minor + "." + patch, "." + patch;
    assert s == major + behind;
    DigitRunIs(major, behind);
    assert s[|major|] == '.' && s[|major| + 1..] == minor + last;
    DigitRunIs(minor, last);
    assert (minor + last)[|minor|] == '.' && (minor + last)[|minor| + 1..] == patch;
    assert patch == patch + "";
    DigitRunIs(patch, "");
  }

  lemma VersionSpells(s: string)
    requires IsVersion(s)
    ensures ThreeNumbers(s)
  {
    var n := DigitRun(s);
    var rest := s[n + 1..];
    var m := DigitRun(rest);
    var patch := rest[m + 1..];
    DigitRunDigits(s);
    DigitRunDigits(rest);
    DigitRunDigits(patch);
    assert rest == rest[..m] + "." + patch;
    assert s == s[..n] + "." + rest;
    assert s == s[..n] + "." + rest[..m] + "." + patch;
    assert Spells(s, s[..n], rest[..m], patch);
  }

  /** A version is three runs of digits with dots between them, and nothing else. */
  lemma VersionIff(s: string)
    ensures IsVersion(s) <==> ThreeNumbers(s)
  {
    if IsVersion(s) {
      VersionSpells(s);
    }
    if major, minor, patch :| Spells(s, major, minor, patch) {
      VersionSpelled(s, major, minor, patch);
    }
  }

  // ---- refusals ---------------------------------------------------------------------------

  /** The text with the site's one capture replaced. */
  function Spliced(site: Site, text: string, version: string): string {
    var spans := site.anchor(text);
    if |spans| == 1 then text[..spans[0].start] + version + text[spans[0].end..] else text
  }

  /** The text of a file after the first `n` sites: each of its own sites has its capture replaced in turn. */
  function TextAfter(sites: seq<Site>, n: nat, version: string, tree: Tree, rel: string): string
    requires n <= |sites|
  {
    if n == 0 then (if rel in tree && tree[rel].Text? then tree[rel].text else "")
    else
      var text := TextAfter(sites, n - 1, version, tree, rel);
      if sites[n - 1].rel == rel then Spliced(sites[n - 1], text, version) else text
  }

  /** Nothing can be replaced for the site: no readable text, no capture group, or not one match in the text so far. */
  predicate Blocked(sites: seq<Site>, i: nat, version: string, tree: Tree)
    requires i < |sites|
  {
    || sites[i].rel !in tree || tree[sites[i].rel].NotUtf8? || !sites[i].hasGroup
    || |sites[i].anchor(TextAfter(sites, i, version, tree, sites[i].rel))| != 1
  }

  /** In the final text the anchor matches once, and captures the version. */
  predicate ReadsBack(sites: seq<Site>, i: nat, version: string, tree: Tree)
    requires i < |sites|
  {
    var text := TextAfter(sites, |sites|, version, tree, sites[i].rel);
    var spans := sites[i].anchor(text);
    |spans| == 1 && text[spans[0].start..spans[0].end] == version
  }

  /** Every file met so far has a body. */
  predicate Met(p: Plan, sites: seq<Site>, n: nat)
    requires n <= |sites|
  {
    && (forall i :: 0 <= i < n ==> sites[i].rel in p.bodies)
    && (forall f :: f in p.bodies ==> exists i :: 0 <= i < n && sites[i].rel == f)
  }

  /** The bodies are those texts. */
  predicate Follows(p: Plan, sites: seq<Site>, n: nat, version: string, tree: Tree)
    requires n <= |sites|
  {
    forall f :: f in p.bodies ==> p.bodies[f] == TextAfter(sites, n, version, tree, f)
  }

  predicate NoneBlocked(sites: seq<Site>, n: nat, version: string, tree: Tree)
    requires n <= |sites|
  {
    forall i :: 0 <= i < n ==> !Blocked(sites, i, version, tree)
  }

  predicate Readable(tree: Tree, rel: string) {
    rel in tree && tree[rel].Text?
  }

  /** A file that no site has touched is as it was. */
  lemma {:induction false} TextUntouched(sites: seq<Site>, n: nat, version: string, tree: Tree, rel: string)
    requires n <= |sites| && forall i :: 0 <= i < n ==> sites[i].rel != rel
    ensures TextAfter(sites, n, version, tree, rel) == TextAfter(sites, 0, version, tree, rel)
  {
    if n > 0 {
      TextUntouched(sites, n - 1, version, tree, rel);
    }
  }

  lemma LoadFollows(p: Plan, sites: seq<Site>, n: nat, version: string, tree: Tree, rel: string)
    requires n <= |sites| && Follows(p, sites, n, version, tree) && Met(p, sites, n)
    requires rel in p.bodies ==> Readable(tree, rel)
    ensures Load(p, rel, tree).Ok? <==> Readable(tree, rel)
    ensures Load(p, rel, tree).Ok? ==>
      var loaded := Load(p, rel, tree).value;
      loaded.bodies.Keys == p.bodies.Keys + {rel} && Follows(loaded, sites, n, version, tree)
  {
    if rel !in p.bodies {
      TextUntouched(sites, n, version, tree, rel);
    }
  }

  lemma RewriteIs(p: Plan, site: Site, version: string)
    requires site.rel in p.bodies
    ensures Rewrite(p, site, version).Ok? <==> site.hasGroup && |site.anchor(p.bodies[site.rel])| == 1
    ensures Rewrite(p, site, version).Ok? ==>
      Rewrite(p, site, version).value.bodies == p.bodies[site.rel := Spliced(site, p.bodies[site.rel], version)]
  {
  }

  lemma SpliceFollows(p: Plan, more: Plan, sites: seq<Site>, n: nat, version: string, tree: Tree)
    requires n < |sites| && Follows(p, sites, n, version, tree) && sites[n].rel in p.bodies
    requires more.bodies == p.bodies[sites[n].rel := Spliced(sites[n], p.bodies[sites[n].rel], version)]
    ensures Follows(more, sites, n + 1, version, tree)
  {
  }

  lemma SiteFollows(p: Plan, sites: seq<Site>, n: nat, version: string, tree: Tree)
    requires n < |sites| && Follows(p, sites, n, version, tree) && Met(p, sites, n)
    requires sites[n].rel in p.bodies ==> Readable(tree, sites[n].rel)
    ensures var r := PlanSite(p, sites[n], version, tree);
      && (r.Ok? <==> !Blocked(sites, n, version, tree))
      && (r.Ok? ==> r.value.bodies.Keys == p.bodies.Keys + {sites[n].rel}
                    && Follows(r.value, sites, n + 1, version, tree))
  {
    LoadFollows(p, sites, n, version, tree, sites[n].rel);
    var loaded := Load(p, sites[n].rel, tree);
    if loaded.Ok? {
      RewriteIs(loaded.value, sites[n], version);
      var r := Rewrite(loaded.value, sites[n], version);
      if r.Ok? {
        SpliceFollows(loaded.value, r.value, sites, n, version, tree);
      }
    }
  }

  lemma MetMore(p: Plan, more: Plan, sites: seq<Site>, n: nat)
    requires n < |sites| && Met(p, sites, n) && more.bodies.Keys == p.bodies.Keys + {sites[n].rel}
    ensures Met(more, sites, n + 1)
  {
    forall f | f in more.bodies
      ensures exists i :: 0 <= i < n + 1 && sites[i].rel == f
    {
      if f in p.bodies {
        var i :| 0 <= i < n && sites[i].rel == f;
      } else {
        assert sites[n].rel == f;
      }
    }
  }

  predicate Planned(r: Result<Plan>, sites: seq<Site>, n: nat, version: string, tree: Tree)
    requires n <= |sites|
  {
    && (r.Ok? <==> NoneBlocked(sites, n, version, tree))
    && (r.Ok? ==> Met(r.value, sites, n) && Follows(r.value, sites, n, version, tree))
  }

  lemma PlannedMore(p: Plan, sites: seq<Site>, n: nat, version: string, tree: Tree)
    requires n < |sites| && Planned(Ok(p), sites, n, version, tree)
    ensures Planned(PlanSite(p, sites[n], version, tree), sites, n + 1, version, tree)
  {
    if sites[n].rel in p.bodies {
      var i :| 0 <= i < n && sites[i].rel == sites[n].rel;
      assert !Blocked(sites, i, version, tree);
    }
    SiteFollows(p, sites, n, version, tree);
    var r := PlanSite(p, sites[n], version, tree);
    if r.Ok? {
      MetMore(p, r.value, sites, n);
    }
  }

  lemma {:induction false} PlanFollows(sites: seq<Site>, n: nat, version: string, tree: Tree)
    requires n <= |sites|
    ensures Planned(PlanSites(sites[..n], version, tree), sites, n, version, tree)
  {
    if n > 0 {
      PlanFollows(sites, n - 1, version, tree);
      assert sites[..n][..n - 1] == sites[..n - 1] && sites[..n][n - 1] == sites[n - 1];
      var before := PlanSites(sites[..n - 1], version, tree);
      if before.Ok? {
        PlannedMore(before.value, sites, n - 1, version, tree);
      }
    }
  }

  lemma SecondPass(p: Plan, sites: seq<Site>, version: string, tree: Tree, i: nat)
    requires Met(p, sites, |sites|) && Follows(p, sites, |sites|, version, tree) && i < |sites|
    ensures Reads(sites[i], p.bodies, version) <==> ReadsBack(sites, i, version, tree)
  {
    var text := TextAfter(sites, |sites|, version, tree, sites[i].rel);
    assert p.bodies[sites[i].rel] == text;
    var spans := sites[i].anchor(text);
    if |spans| == 1 {
      assert Captured(sites[i].anchor, text) == [text[spans[0].start..spans[0].end]];
    }
  }

  predicate AllReadBack(sites: seq<Site>, version: string, tree: Tree) {
    forall i :: 0 <= i < |sites| ==> ReadsBack(sites, i, version, tree)
  }

  lemma SecondPasses(p: Plan, sites: seq<Site>, version: string, tree: Tree)
    requires Met(p, sites, |sites|) && Follows(p, sites, |sites|, version, tree)
    ensures (forall i :: 0 <= i < |sites| ==> Reads(sites[i], p.bodies, version)) <==> AllReadBack(sites, version, tree)
  {
    forall i | 0 <= i < |sites|
      ensures Reads(sites[i], p.bodies, version) <==> ReadsBack(sites, i, version, tree)
    {
      SecondPass(p, sites, version, tree, i);
    }
  }

  lemma PlanIff(sites: seq<Site>, version: string, tree: Tree)
    ensures PlanOf(sites, version, tree).Ok? <==>
      ThreeNumbers(version) && NoneBlocked(sites, |sites|, version, tree) && AllReadBack(sites, version, tree)
    ensures PlanOf(sites, version, tree).Ok? ==>
      Follows(PlanOf(sites, version, tree).value, sites, |sites|, version, tree)
  {
    VersionIff(version);
    PlanFollows(sites, |sites|, version, tree);
    assert sites[..|sites|] == sites;
    var p := PlanSites(sites, version, tree);
    if p.Ok? {
      SecondPasses(p.value, sites, version, tree);
    }
  }

  lemma {:induction false} WritingNeverRefuses(schedule: Schedule, disk: Disk, p: Plan, todo: seq<string>,
          written: seq<string>, untouched: seq<string>)
    requires Covers(p, todo) && Covers(p, written)
    ensures !WriteAll(schedule, disk, p, todo, written, untouched).Refused?
    decreases |todo|
  {
    if |todo| > 0 {
      var rel, rest := todo[0], todo[1..];
      if p.bodies[rel] == p.originals[rel] {
        WritingNeverRefuses(schedule, disk, p, rest, written, untouched + [rel]);
      } else if schedule(disk.clock).Done? {
        var next := Replaced(schedule, disk, rel, p.bodies[rel]);
        WritingNeverRefuses(schedule, next, p, rest, written + [rel], untouched);
      }
    }
  }

  /**
   A stamp is refused, and nothing touched, exactly when the version is not three
   numbers, some site is blocked when its turn comes, or some site does not read
   the version back in the end.
   */
  lemma RefusedIff(schedule: Schedule, disk: Disk, sites: seq<Site>, version: string)
    ensures StampAll(schedule, disk, sites, version).Refused? <==>
      || !ThreeNumbers(version)
      || (exists i :: 0 <= i < |sites| && Blocked(sites, i, version, disk.files))
      || (exists i :: 0 <= i < |sites| && !ReadsBack(sites, i, version, disk.files))
  {
    PlanIff(sites, version, disk.files);
    if PlanOf(sites, version, disk.files).Ok? {
      var p := PlanOf(sites, version, disk.files).value;
      PlanCovers(sites, version, disk.files);
      WritingNeverRefuses(schedule, disk, p, p.order, [], []);
    }
  }

  /** A completed stamp leaves every file with its captures replaced and every other character as it was. */
  lemma CompleteText(schedule: Schedule, disk: Disk, sites: seq<Site>, version: string, f: string)
    requires StampAll(schedule, disk, sites, version).Complete? && Readable(disk.files, f)
    ensures var r := StampAll(schedule, disk, sites, version);
      f in r.disk.files && r.disk.files[f] == Text(TextAfter(sites, |sites|, version, disk.files, f))
  {
    PlanIff(sites, version, disk.files);
    StampLeaves(schedule, disk, sites, version, f);
    PlanCovers(sites, version, disk.files);
    if f !in PlanOf(sites, version, disk.files).value.bodies {
      assert forall i :: 0 <= i < |sites| ==> sites[i].rel in FilesOf(sites);
      TextUntouched(sites, |sites|, version, disk.files, f);
    }
  }

  lemma {:induction false} WritingLists(schedule: Schedule, disk: Disk, p: Plan, todo: seq<string>,
          written: seq<string>, untouched: seq<string>, f: string)
    requires Covers(p, todo) && Covers(p, written) && WriteAll(schedule, disk, p, todo, written, untouched).Complete?
    ensures var r := WriteAll(schedule, disk, p, todo, written, untouched);
      && (f in r.written <==> f in written || (f in todo && p.bodies[f] != p.originals[f]))
      && (f in r.untouched <==> f in untouched || (f in todo && p.bodies[f] == p.originals[f]))
    decreases |todo|
  {
    if |todo| > 0 {
      var rel, rest := todo[0], todo[1..];
      assert f in todo <==> f == rel || f in rest;
      if p.bodies[rel] == p.originals[rel] {
        WritingLists(schedule, disk, p, rest, written, untouched + [rel], f);
      } else {
        var next := Replaced(schedule, disk, rel, p.bodies[rel]);
        WritingLists(schedule, next, p, rest, written + [rel], untouched, f);
      }
    }
  }

  /** A completed stamp reports a file of its sites as written exactly when its text changed, and else as unchanged. */
  lemma CompleteReport(schedule: Schedule, disk: Disk, sites: seq<Site>, version: string, f: string)
    requires StampAll(schedule, disk, sites, version).Complete?
    ensures var r := StampAll(schedule, disk, sites, version);
            var changed := Readable(disk.files, f)
                           && TextAfter(sites, |sites|, version, disk.files, f) != disk.files[f].text;
            var isSite := exists i :: 0 <= i < |sites| && sites[i].rel == f;
      (f in r.written <==> isSite && changed) && (f in r.untouched <==> isSite && !changed)
  {
    PlanIff(sites, version, disk.files);
    PlanCovers(sites, version, disk.files);
    var p := PlanOf(sites, version, disk.files).value;
    assert f in p.bodies <==> f in FilesOf(sites);
    if f in p.bodies {
      assert disk.files[f] == Text(p.originals[f]);
    }
    WritingLists(schedule, disk, p, p.order, [], [], f);
  }
}
