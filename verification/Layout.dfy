/** The layout-v2 plan itself: every path that moved off the install root. */
module Layout {
  import opened Jsonl
  import opened FileTree
  import opened Migration

  const ETC_FILES: seq<string> :=
    ["config.yaml", "summrise-agent.hostname", "tunnel.yml", ".summrise-release", "boxed-versions.json"]
  const COMPONENTS: seq<string> :=
    ["node", "npm-global", "cloudflared.exe", "playwright", "summrise-desktop-electron"]
  const SCRIPTS: seq<string> :=
    ["ensure-desktop.ps1", "desktop-pulse.vbs", "start-desktop.ps1", "summrise-online-setup.ps1", "fix-tunnel.ps1",
     "run-hidden.vbs", "playwright-probe.ps1", "shell-integration"]
  const LOGS: seq<string> :=
    ["installer.log", "install-result.txt", "summrise-update.log", "agent.log", "startup.log"]

  /** Where a path sat before: most at the root, a few one level down. */
  function OldPlace(name: string): Path {
    if name == "node" || name == "npm-global" || name == "cloudflared.exe" then ["tools", name]
    else if name == "run-hidden.vbs" || name == "playwright-probe.ps1" then ["playwright", name]
    else [name]
  }

  function MovesInto(install: Path, home: Path, names: seq<string>): (ms: seq<Move>)
    ensures forall m :: m in ms <==> exists n :: n in names && m == Move(install + OldPlace(n), home + [n])
  {
    if |names| == 0 then []
    else [Move(install + OldPlace(names[0]), home + [names[0]])] + MovesInto(install, home, names[1..])
  }

  function MigrationMoves(install: Path, data: Path): seq<Move> {
    MovesInto(install, install + ["etc"], ETC_FILES)
    + MovesInto(install, install + ["components"], COMPONENTS)
    + MovesInto(install, install + ["scripts"], SCRIPTS)
    + MovesInto(install, data + ["logs"], LOGS)
    + MovesInto(install, data, ["pwout"])
  }

  lemma {:induction false} MovesAre(install: Path, home: Path, names: seq<string>)
    ensures |MovesInto(install, home, names)| == |names|
    ensures forall i | 0 <= i < |names| ::
              MovesInto(install, home, names)[i] == Move(install + OldPlace(names[i]), home + [names[i]])
  {
    if |names| > 0 {
      hide OldPlace;
      MovesAre(install, home, names[1..]);
    }
  }

  lemma EtcPlaces(install: Path, home: Path)
    ensures MovesInto(install, home, ETC_FILES) ==
            [Move(install + ["config.yaml"], home + ["config.yaml"]),
             Move(install + ["summrise-agent.hostname"], home + ["summrise-agent.hostname"]),
             Move(install + ["tunnel.yml"], home + ["tunnel.yml"]),
             Move(install + [".summrise-release"], home + [".summrise-release"]),
             Move(install + ["boxed-versions.json"], home + ["boxed-versions.json"])]
  {
    MovesAre(install, home, ETC_FILES);
    hide MovesInto;
  }

  lemma ComponentPlaces(install: Path, home: Path)
    ensures MovesInto(install, home, COMPONENTS) ==
            [Move(install + ["tools", "node"], home + ["node"]),
             Move(install + ["tools", "npm-global"], home + ["npm-global"]),
             Move(install + ["tools", "cloudflared.exe"], home + ["cloudflared.exe"]),
             Move(install + ["playwright"], home + ["playwright"]),
             Move(install + ["summrise-desktop-electron"], home + ["summrise-desktop-electron"])]
  {
    MovesAre(install, home, COMPONENTS);
    hide MovesInto;
  }

  lemma ScriptPlaces(install: Path, home: Path)
    ensures MovesInto(install, home, SCRIPTS) ==
            [Move(install + ["ensure-desktop.ps1"], home + ["ensure-desktop.ps1"]),
             Move(install + ["desktop-pulse.vbs"], home + ["desktop-pulse.vbs"]),
             Move(install + ["start-desktop.ps1"], home + ["start-desktop.ps1"]),
             Move(install + ["summrise-online-setup.ps1"], home + ["summrise-online-setup.ps1"]),
             Move(install + ["fix-tunnel.ps1"], home + ["fix-tunnel.ps1"]),
             Move(install + ["playwright", "run-hidden.vbs"], home + ["run-hidden.vbs"]),
             Move(install + ["playwright", "playwright-probe.ps1"], home + ["playwright-probe.ps1"]),
             Move(install + ["shell-integration"], home + ["shell-integration"])]
  {
    MovesAre(install, home, SCRIPTS);
    hide MovesInto;
  }

  lemma LogPlaces(install: Path, home: Path)
    ensures MovesInto(install, home, LOGS) ==
            [Move(install + ["installer.log"], home + ["installer.log"]),
             Move(install + ["install-result.txt"], home + ["install-result.txt"]),
             Move(install + ["summrise-update.log"], home + ["summrise-update.log"]),
             Move(install + ["agent.log"], home + ["agent.log"]),
             Move(install + ["startup.log"], home + ["startup.log"])]
  {
    MovesAre(install, home, LOGS);
    hide MovesInto;
  }

  /** THE PLAN, PLACE BY PLACE, in its order. */
  lemma PlanPlaces(install: Path, data: Path)
    ensures var etc, components := install + ["etc"], install + ["components"];
            var scripts, logs := install + ["scripts"], data + ["logs"];
            MigrationMoves(install, data) ==
              [Move(install + ["config.yaml"], etc + ["config.yaml"]),
               Move(install + ["summrise-agent.hostname"], etc + ["summrise-agent.hostname"]),
               Move(install + ["tunnel.yml"], etc + ["tunnel.yml"]),
               Move(install + [".summrise-release"], etc + [".summrise-release"]),
               Move(install + ["boxed-versions.json"], etc + ["boxed-versions.json"])]
              + [Move(install + ["tools", "node"], components + ["node"]),
               Move(install + ["tools", "npm-global"], components + ["npm-global"]),
               Move(install + ["tools", "cloudflared.exe"], components + ["cloudflared.exe"]),
               Move(install + ["playwright"], components + ["playwright"]),
               Move(install + ["summrise-desktop-electron"], components + ["summrise-desktop-electron"])]
              + [Move(install + ["ensure-desktop.ps1"], scripts + ["ensure-desktop.ps1"]),
               Move(install + ["desktop-pulse.vbs"], scripts + ["desktop-pulse.vbs"]),
               Move(install + ["start-desktop.ps1"], scripts + ["start-desktop.ps1"]),
               Move(install + ["summrise-online-setup.ps1"], scripts + ["summrise-online-setup.ps1"]),
               Move(install + ["fix-tunnel.ps1"], scripts + ["fix-tunnel.ps1"]),
               Move(install + ["playwright", "run-hidden.vbs"], scripts + ["run-hidden.vbs"]),
               Move(install + ["playwright", "playwright-probe.ps1"], scripts + ["playwright-probe.ps1"]),
               Move(install + ["shell-integration"], scripts + ["shell-integration"])]
              + [Move(install + ["installer.log"], logs + ["installer.log"]),
               Move(install + ["install-result.txt"], logs + ["install-result.txt"]),
               Move(install + ["summrise-update.log"], logs + ["summrise-update.log"]),
               Move(install + ["agent.log"], logs + ["agent.log"]),
               Move(install + ["startup.log"], logs + ["startup.log"])]
              + [Move(install + ["pwout"], data + ["pwout"])]
  {
    EtcPlaces(install, install + ["etc"]);
    ComponentPlaces(install, install + ["components"]);
    ScriptPlaces(install, install + ["scripts"]);
    LogPlaces(install, data + ["logs"]);
    PwoutPlace(install, data);
    hide MovesInto;
  }

  lemma PwoutPlace(install: Path, data: Path)
    ensures MovesInto(install, data, ["pwout"]) == [Move(install + ["pwout"], data + ["pwout"])]
  {
    MovesAre(install, data, ["pwout"]);
    hide MovesInto;
  }

  function Marker(install: Path): Path {
    install + ["etc", ".layout-v2"]
  }

  // ---------------------------------------------------------------- sane roots

  /** A move of the plan, seen from its roots. */
  datatype Spec = Spec(name: string, home: string)

  function From(s: Spec): Path {
    OldPlace(s.name)
  }

  function To(s: Spec): Path {
    if s.home == "" then [s.name] else [s.home, s.name]
  }

  predicate OnData(s: Spec) {
    s.home == "" || s.home == "logs"
  }

  function MoveOf(install: Path, data: Path, s: Spec): Move {
    Move(install + From(s), (if OnData(s) then data else install) + To(s))
  }

  predicate IsSpec(s: Spec) {
    || (s.home == "etc" && s.name in ETC_FILES)
    || (s.home == "components" && s.name in COMPONENTS)
    || (s.home == "scripts" && s.name in SCRIPTS)
    || (s.home == "logs" && s.name in LOGS)
    || (s.home == "" && s.name == "pwout")
  }

  predicate IsHome(n: string) {
    n == "etc" || n == "components" || n == "scripts" || n == "logs"
  }

  /** No old path starts where a new one does. */
  predicate Leaf(n: string) {
    !IsHome(n) && n != "pwout" && n != ".layout-v2" && n != ""
  }

  lemma EtcAreLeaves()
    ensures forall n | n in ETC_FILES :: Leaf(n)
  {
  }

  lemma ComponentsAreLeaves()
    ensures forall n | n in COMPONENTS :: Leaf(n)
  {
    assert "npm-global"[0] == 'n' && "playwright"[0] == 'p' && "components"[0] == 'c';
    assert "node"[0] == 'n' && "logs"[0] == 'l';
  }

  lemma ScriptsAreLeaves()
    ensures forall n | n in SCRIPTS :: Leaf(n)
  {
  }

  lemma LogsAreLeaves()
    ensures forall n | n in LOGS :: Leaf(n)
  {
    assert "install-result.txt"[0] == 'i';
  }

  lemma SpecShape(s: Spec)
    requires IsSpec(s)
    ensures s.home != "" ==> IsHome(s.home) && Leaf(s.name)
    ensures s.home == "" ==> s.name == "pwout"
  {
    EtcAreLeaves();
    ComponentsAreLeaves();
    ScriptsAreLeaves();
    LogsAreLeaves();
  }

  lemma FromShape(s: Spec)
    requires IsSpec(s)
    ensures |From(s)| > 0 && !IsHome(From(s)[0])
    ensures From(s)[0] == "pwout" <==> s.home == ""
  {
    SpecShape(s);
    assert |"tools"| == 5 && "tools"[0] == 't' && "pwout"[0] == 'p';
  }

  function Home(install: Path, data: Path, home: string): Path {
    if home == "" then data else if home == "logs" then data + [home] else install + [home]
  }

  lemma SpecIn(install: Path, data: Path, home: string, names: seq<string>, m: Move) returns (s: Spec)
    requires forall n | n in names :: IsSpec(Spec(n, home))
    requires m in MovesInto(install, Home(install, data, home), names)
    ensures IsSpec(s) && m == MoveOf(install, data, s)
  {
    hide IsSpec, OldPlace;
    var n :| n in names && m == Move(install + OldPlace(n), Home(install, data, home) + [n]);
    s := Spec(n, home);
    var root := if OnData(s) then data else install;
    assert Home(install, data, home) + [n] == root + To(s);
  }

  lemma Specs(install: Path, data: Path, m: Move) returns (s: Spec)
    requires m in MigrationMoves(install, data)
    ensures IsSpec(s) && m == MoveOf(install, data, s)
  {
    hide MovesInto, MoveOf, IsSpec;
    NamesAreSpecs();
    if m in MovesInto(install, install + ["etc"], ETC_FILES) {
      s := SpecIn(install, data, "etc", ETC_FILES, m);
    } else if m in MovesInto(install, install + ["components"], COMPONENTS) {
      s := SpecIn(install, data, "components", COMPONENTS, m);
    } else if m in MovesInto(install, install + ["scripts"], SCRIPTS) {
      s := SpecIn(install, data, "scripts", SCRIPTS, m);
    } else if m in MovesInto(install, data + ["logs"], LOGS) {
      s := SpecIn(install, data, "logs", LOGS, m);
    } else {
      s := SpecIn(install, data, "", ["pwout"], m);
    }
  }

  lemma NamesAreSpecs()
    ensures forall n | n in ETC_FILES :: IsSpec(Spec(n, "etc"))
    ensures forall n | n in COMPONENTS :: IsSpec(Spec(n, "components"))
    ensures forall n | n in SCRIPTS :: IsSpec(Spec(n, "scripts"))
    ensures forall n | n in LOGS :: IsSpec(Spec(n, "logs"))
    ensures forall n | n in ["pwout"] :: IsSpec(Spec(n, ""))
  {
  }

  lemma ApartAt(root: Path, a: Path, b: Path, i: nat)
    requires i < |a| && i < |b| && a[i] != b[i]
    ensures Apart(root + a, root + b)
  {
    assert (root + a)[|root| + i] != (root + b)[|root| + i];
  }

  lemma ApartRoots(r: Path, s: Path, a: Path, b: Path)
    requires Apart(r, s)
    ensures Apart(r + a, s + b)
  {
    PrefixTrans(r, r + a, s + b);
    PrefixTotal(r, s, s + b);
    PrefixTrans(s, s + b, r + a);
    PrefixTotal(r, s, r + a);
  }

  lemma PrefixOfSame(root: Path, a: Path, b: Path)
    ensures root + a <= root + b <==> a <= b
  {
    assert (root + a)[|root|..] == a && (root + b)[|root|..] == b;
    if root + a <= root + b {
      assert root + a == (root + b)[..|root + a|];
      assert forall i | 0 <= i < |a| :: a[i] == (root + a)[|root| + i] == (root + b)[|root| + i] == b[i];
    }
    if a <= b {
      assert a == b[..|a|];
      assert (root + b)[..|root + a|] == root + a;
    }
  }

  lemma ApartSame(root: Path, a: Path, b: Path)
    ensures Apart(root + a, root + b) <==> Apart(a, b)
  {
    PrefixOfSame(root, a, b);
    PrefixOfSame(root, b, a);
  }

  /** The data root is not at or below a place the plan uses under the install
      root, nor the install root at or below a place it uses under the data root. */
  ghost predicate Avoids(install: Path, data: Path) {
    && !(Marker(install) <= data)
    && forall s | IsSpec(s) ::
         && !(install + From(s) <= data)
         && (if OnData(s) then !(data + To(s) <= install) else !(install + To(s) <= data))
  }

  /** How two roots can lie. */
  lemma Roots(install: Path, data: Path) returns (r: Path)
    ensures Apart(data, install) || data == install + r || install == data + r
  {
    r := [];
    if install <= data {
      r := data[|install|..];
      assert data == install + r;
    } else if data <= install {
      r := install[|data|..];
      assert install == data + r;
    }
  }

  /** A place under the data root against one under the install root, two names
      deep, whose second name the data places do not begin with. */
  lemma DataApart(install: Path, data: Path, s: Spec, u: Path)
    requires IsSpec(s) && OnData(s) && |u| == 2
    requires u[1] != "logs" && u[1] != "pwout" && u[0] != To(s)[0] && (|To(s)| == 2 ==> u[0] != To(s)[1])
    requires !(install + u <= data) && !(data + To(s) <= install)
    ensures Apart(data + To(s), install + u)
  {
    SpecShape(s);
    var r := Roots(install, data);
    if Apart(data, install) {
      ApartRoots(data, install, To(s), u);
    } else if data == install + r {
      PrefixOfSame(install, u, r);
      Assoc(install, r, To(s));
      ApartSame(install, r + To(s), u);
      BelowInstall(r, To(s), u);
    } else {
      PrefixOfSame(data, To(s), r);
      Assoc(data, r, u);
      ApartSame(data, To(s), r + u);
      BelowData(r, To(s), u);
    }
  }

  lemma BelowInstall(r: Path, d: Path, u: Path)
    requires 1 <= |d| <= 2 && (d[0] == "logs" || d[0] == "pwout") && 1 <= |u| <= 2 && !(u <= r)
    requires u[0] != d[0] || |r| > 0
    requires |u| == 2 ==> u[1] != "logs" && u[1] != "pwout"
    ensures Apart(r + d, u)
  {
    var g := r + d;
    if |r| == 0 {
      assert g[0] != u[0];
    } else if |u| <= |r| {
      assert g[..|u|] == r[..|u|];
    } else {
      assert |r| == 1 && |u| == 2 && g[1] == d[0] != u[1];
    }
  }

  lemma BelowData(q: Path, d: Path, u: Path)
    requires 1 <= |d| <= 2 && |u| >= 1 && !(d <= q)
    requires u[0] != d[0] || |q| > 0
    requires |d| == 2 ==> u[0] != d[1]
    ensures Apart(d, q + u)
  {
    var g := q + u;
    if |q| == 0 {
      assert g[0] != d[0];
    } else if |d| <= |q| {
      assert g[..|d|] == q[..|d|];
    } else {
      assert |q| == 1 && |d| == 2 && g[1] == u[0] != d[1];
    }
  }

  /** Length and first letter tell the logs from every other name. */
  predicate LogLike(n: string) {
    || (|n| == 13 && n[0] == 'i') || (|n| == 18 && n[0] == 'i') || (|n| == 19 && n[0] == 's')
    || (|n| == 9 && n[0] == 'a') || (|n| == 11 && n[0] == 's')
  }

  lemma LogsAreLogLike()
    ensures forall n | n in LOGS :: LogLike(n)
  {
  }

  lemma EtcAreNot()
    ensures forall n | n in ETC_FILES :: !LogLike(n) && n != "data"
  {
  }

  lemma ComponentsAreNot()
    ensures forall n | n in COMPONENTS :: !LogLike(n) && n != "data"
  {
    assert "node"[0] == 'n';
  }

  lemma ScriptsAreNot()
    ensures forall n | n in SCRIPTS :: !LogLike(n) && n != "data"
  {
  }

  lemma LogsStandAlone(k: Spec, n: string)
    requires IsSpec(k) && n in LOGS && From(k)[0] == n
    ensures k == Spec(n, "logs")
  {
    hide LogLike;
    LogsAreLogLike();
    EtcAreNot();
    ComponentsAreNot();
    ScriptsAreNot();
    FirstNames(k);
  }

  lemma FirstNames(k: Spec)
    requires IsSpec(k)
    ensures From(k) == [k.name] || (From(k)[0] in ["tools", "playwright"] && k.home != "logs")
    ensures !LogLike("tools") && !LogLike("playwright") && !LogLike("pwout")
  {
    LogsAreLogLike();
    assert |"tools"| == 5 && |"playwright"| == 10 && |"pwout"| == 5;
    assert !LogLike("node") && !LogLike("npm-global") && !LogLike("cloudflared.exe");
    assert !LogLike("run-hidden.vbs") && !LogLike("playwright-probe.ps1");
  }

  lemma SecondNameIsLeaf(k: Spec)
    requires IsSpec(k)
    ensures 1 <= |From(k)| <= 2 && (|From(k)| == 2 ==> Leaf(From(k)[1]))
  {
    SpecShape(k);
    var n := "node";
    assert |"pwout"| == 5 && "pwout"[0] == 'p';
  }

  lemma OldApartNew(install: Path, data: Path, k: Spec, s: Spec)
    requires Avoids(install, data) && IsSpec(k) && IsSpec(s)
    ensures var from, to := MoveOf(install, data, k).from, MoveOf(install, data, s).to;
            Apart(from, to) || (k == s && from == to)
  {
    FromShape(k);
    SpecShape(k);
    SpecShape(s);
    SecondNameIsLeaf(k);
    if OnData(s) {
      SourceApart(install, data, k, s);
    } else {
      assert From(k)[0] != To(s)[0];
      ApartAt(install, From(k), To(s), 0);
    }
  }

  lemma SourceApart(install: Path, data: Path, k: Spec, s: Spec)
    requires IsSpec(k) && IsSpec(s) && OnData(s)
    requires !(install + From(k) <= data) && !(data + To(s) <= install)
    ensures Apart(install + From(k), data + To(s)) || (k == s && install + From(k) == data + To(s))
  {
    FromShape(k);
    SpecShape(s);
    SecondNameIsLeaf(k);
    var f, d := From(k), To(s);
    var r := Roots(install, data);
    if Apart(data, install) {
      ApartRoots(install, data, f, d);
    } else if data == install + r {
      PrefixOfSame(install, f, r);
      Assoc(install, r, d);
      ApartSame(install, f, r + d);
      if |r| == 0 && f[0] == d[0] {
        BothPwout(k, s);
        assert r + d == d;
      } else {
        BelowInstall(r, d, f);
      }
    } else {
      PrefixOfSame(data, d, r);
      Assoc(data, r, f);
      ApartSame(data, r + f, d);
      assert |r| > 0 by {
        assert install + [] == install && data + [] == data;
      }
      if |d| == 2 && f[0] == d[1] {
        LogsStandAlone(k, d[1]);
        SameLog(data, r, f, d);
      } else {
        BelowData(r, d, f);
      }
    }
  }

  lemma BothPwout(k: Spec, s: Spec)
    requires IsSpec(k) && IsSpec(s) && OnData(s) && From(k)[0] == To(s)[0]
    ensures k == s && From(k) == To(s) == ["pwout"]
  {
    FromShape(k);
    SpecShape(k);
    SpecShape(s);
  }

  lemma SameLog(data: Path, q: Path, f: Path, d: Path)
    requires |d| == 2 && f == [d[1]] && !(d <= q) && |q| > 0
    ensures Apart(q + f, d) || data + q + f == data + d
  {
    var g := q + f;
    if |q| == 1 {
      if q[0] == d[0] {
        assert g == d;
        Assoc(data, q, f);
      } else {
        assert g[0] != d[0];
      }
    } else {
      assert g[..2] == q[..2];
    }
  }

  lemma InstallPlaceApart(install: Path, data: Path, s: Spec, k: Spec)
    requires Avoids(install, data) && IsSpec(s) && IsSpec(k) && OnData(s) && !OnData(k)
    ensures Apart(data + To(s), install + To(k))
  {
    SpecShape(s);
    SpecShape(k);
    DataApart(install, data, s, To(k));
  }

  lemma NewsApart(install: Path, data: Path, k: Spec, s: Spec)
    requires Avoids(install, data) && IsSpec(k) && IsSpec(s) && k != s
    ensures Apart(MoveOf(install, data, k).to, MoveOf(install, data, s).to)
  {
    if OnData(s) && !OnData(k) {
      InstallPlaceApart(install, data, s, k);
    } else if OnData(k) && !OnData(s) {
      InstallPlaceApart(install, data, k, s);
    } else {
      SpecShape(k);
      SpecShape(s);
      var root := if OnData(k) then data else install;
      if To(k)[0] != To(s)[0] {
        ApartAt(root, To(k), To(s), 0);
      } else {
        assert k.home == s.home != "";
        ApartAt(root, To(k), To(s), 1);
      }
    }
  }

  lemma MarkerApart(install: Path, data: Path, s: Spec)
    requires Avoids(install, data) && IsSpec(s)
    ensures Apart(MoveOf(install, data, s).from, Marker(install))
    ensures Apart(MoveOf(install, data, s).to, Marker(install))
  {
    FromShape(s);
    SpecShape(s);
    var tail := ["etc", ".layout-v2"];
    ApartAt(install, From(s), tail, 0);
    if OnData(s) {
      DataApart(install, data, s, tail);
    } else if s.home == "etc" {
      ApartAt(install, To(s), tail, 1);
    } else {
      ApartAt(install, To(s), tail, 0);
    }
  }

  lemma AvoidingIsSane(install: Path, data: Path)
    requires Avoids(install, data)
    ensures Sane(MigrationMoves(install, data), Marker(install))
  {
    hide MigrationMoves, IsSpec, MoveOf, Marker, Avoids;
    var plan, marker := MigrationMoves(install, data), Marker(install);
    MarkerLength(install);
    forall m | m in plan
      ensures |m.to| > 0 && (m.from == m.to || Apart(m.from, m.to))
      ensures Apart(m.from, marker) && Apart(m.to, marker)
    {
      var s := Specs(install, data, m);
      OldApartNew(install, data, s, s);
      MarkerApart(install, data, s);
      MoveLengths(install, data, s);
    }
    forall m, k | m in plan && k in plan && m != k
      ensures Apart(k.from, m.to) && Apart(m.to, k.to)
    {
      var s := Specs(install, data, m);
      var t := Specs(install, data, k);
      OldApartNew(install, data, t, s);
      NewsApart(install, data, s, t);
    }
  }

  // ---------------------------------------------------------------- no other roots

  lemma InGroup(install: Path, home: Path, names: seq<string>, n: string)
    requires n in names
    ensures Move(install + OldPlace(n), home + [n]) in MovesInto(install, home, names)
  {
    hide OldPlace;
  }

  lemma SpecIsMove(install: Path, data: Path, s: Spec)
    requires IsSpec(s)
    ensures MoveOf(install, data, s) in MigrationMoves(install, data)
  {
    hide OldPlace, MovesInto;
    if s.home == "etc" {
      InGroup(install, install + ["etc"], ETC_FILES, s.name);
      Assoc(install, ["etc"], [s.name]);
    } else if s.home == "components" {
      InGroup(install, install + ["components"], COMPONENTS, s.name);
      Assoc(install, ["components"], [s.name]);
    } else if s.home == "scripts" {
      InGroup(install, install + ["scripts"], SCRIPTS, s.name);
      Assoc(install, ["scripts"], [s.name]);
    } else if s.home == "logs" {
      InGroup(install, data + ["logs"], LOGS, s.name);
      Assoc(data, ["logs"], [s.name]);
    } else {
      InGroup(install, data, ["pwout"], s.name);
    }
  }

  const PWOUT := Spec("pwout", "")

  /** A place at or above the data root is above where `pwout` goes. */
  lemma AbovePwout(install: Path, data: Path, p: Path)
    requires p <= data
    ensures p <= MoveOf(install, data, PWOUT).to && p != MoveOf(install, data, PWOUT).to
  {
    PrefixTrans(p, data, data + ["pwout"]);
  }

  lemma SaneAvoids(install: Path, data: Path, s: Spec)
    requires IsSpec(s) && Sane(MigrationMoves(install, data), Marker(install))
    ensures !(install + From(s) <= data) && !(Marker(install) <= data)
    ensures if OnData(s) then !(data + To(s) <= install) else !(install + To(s) <= data)
  {
    hide MigrationMoves, IsSpec;
    var m, w := MoveOf(install, data, s), MoveOf(install, data, PWOUT);
    PwoutIsSpec();
    SpecIsMove(install, data, s);
    SpecIsMove(install, data, PWOUT);
    if m.from <= data {
      AbovePwout(install, data, m.from);
    }
    if Marker(install) <= data {
      AbovePwout(install, data, Marker(install));
    }
    if OnData(s) {
      PrefixTrans(m.to, install, Marker(install));
    } else if m.to <= data {
      AbovePwout(install, data, m.to);
    }
  }

  lemma PwoutIsSpec()
    ensures IsSpec(PWOUT)
  {
  }

  /** THE REAL PLAN IS SANE, overlapping pairs and all, exactly when the data
      root is not at or below a place it uses under the install root, nor the
      install root at or below one it uses under the data root. */
  lemma PlanIsSane(install: Path, data: Path)
    ensures Sane(MigrationMoves(install, data), Marker(install)) <==> Avoids(install, data)
    ensures forall m | m in MigrationMoves(install, data) :: |m.from| > 0
  {
    hide MigrationMoves, IsSpec, MoveOf, Marker, Sane;
    forall m | m in MigrationMoves(install, data)
      ensures |m.from| > 0
    {
      var s := Specs(install, data, m);
      MoveLengths(install, data, s);
    }
    if Sane(MigrationMoves(install, data), Marker(install)) {
      PwoutIsSpec();
      SaneAvoids(install, data, PWOUT);
      forall s | IsSpec(s)
        ensures !(install + From(s) <= data)
        ensures if OnData(s) then !(data + To(s) <= install) else !(install + To(s) <= data)
      {
        SaneAvoids(install, data, s);
      }
    }
    if Avoids(install, data) {
      AvoidingIsSane(install, data);
    }
  }

  /** A data root that is a directory of its own under the install root. */
  lemma DataUnderInstall(install: Path)
    ensures Sane(MigrationMoves(install, install + ["data"]), Marker(install))
  {
    hide MigrationMoves, Sane;
    var data := install + ["data"];
    forall s | IsSpec(s)
      ensures !(install + From(s) <= data)
      ensures if OnData(s) then !(data + To(s) <= install) else !(install + To(s) <= data)
    {
      SpecShape(s);
      PrefixOfSame(install, From(s), ["data"]);
      PrefixOfSame(install, To(s), ["data"]);
      NoDataName(s);
    }
    PrefixOfSame(install, ["etc", ".layout-v2"], ["data"]);
    PlanIsSane(install, data);
  }

  lemma NoDataName(s: Spec)
    requires IsSpec(s)
    ensures |From(s)| > 0 && From(s)[0] != "data"
  {
    hide LogLike;
    LogsAreNotData();
    EtcAreNot();
    ComponentsAreNot();
    ScriptsAreNot();
    FirstNames(s);
    assert |"tools"| == 5 && |"playwright"| == 10 && |"pwout"| == 5 && |"data"| == 4;
  }

  lemma LogsAreNotData()
    ensures forall n | n in LOGS :: n != "data"
  {
  }

  /** A data root inside a directory that moves: its `pwout` would have to go
      inside itself. */
  lemma DataInsidePwout(install: Path, below: Path)
    ensures !Sane(MigrationMoves(install, install + ["pwout"] + below), Marker(install))
  {
    hide MigrationMoves, Sane;
    PwoutIsSpec();
    assert From(PWOUT) == ["pwout"];
    PlanIsSane(install, install + ["pwout"] + below);
  }

  lemma MarkerLength(install: Path)
    ensures |Marker(install)| > 0
  {
  }

  lemma MoveLengths(install: Path, data: Path, s: Spec)
    requires IsSpec(s)
    ensures |MoveOf(install, data, s).from| > 0 && |MoveOf(install, data, s).to| > 0
  {
    FromShape(s);
  }
}
