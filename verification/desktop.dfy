/** Setting the desktop wallpaper: the Python backends with their fallback
    order, and the C++ `WallpaperSetter` with its desktop detection.  The
    environment is a map, the tools on `PATH` a set, and every process run
    an oracle from the command line to its result. */
module Desktop {
  import opened Wrappers
  import opened Strings
  import Seqs

  type Env = map<string, string>

  /** A command line: the program and its arguments. */
  datatype Command = Command(program: string, args: seq<string>)

  /** `os.environ.get(name)`. */
  function EnvGet(env: Env, name: string): Option<string> {
    if name in env then Some(env[name]) else None
  }

  /** Python truthiness of an optional string. */
  predicate PyTruthy(v: Option<string>) {
    v.Some? && v.value != ""
  }

  // ---- Python ----

  /** The variable `detect_desktop` reads: `XDG_CURRENT_DESKTOP`, or
      `DESKTOP_SESSION` when that is unset or empty; `None` when both are. */
  function DesktopVar(env: Env): (v: Option<string>)
    ensures v.Some? ==> v.value != ""
    ensures PyTruthy(EnvGet(env, "XDG_CURRENT_DESKTOP")) ==> v == EnvGet(env, "XDG_CURRENT_DESKTOP")
    ensures !PyTruthy(EnvGet(env, "XDG_CURRENT_DESKTOP")) ==>
      v == if PyTruthy(EnvGet(env, "DESKTOP_SESSION")) then EnvGet(env, "DESKTOP_SESSION") else None
  {
    var xdg := EnvGet(env, "XDG_CURRENT_DESKTOP");
    var v := if PyTruthy(xdg) then xdg else EnvGet(env, "DESKTOP_SESSION");
    if PyTruthy(v) then v else None
  }

  /** `detect_desktop`: the text after the last colon of that variable,
      trimmed (which may be empty). */
  function DetectDesktop(env: Env): (r: Option<string>)
    ensures r.None? <==> !PyTruthy(EnvGet(env, "XDG_CURRENT_DESKTOP")) && !PyTruthy(EnvGet(env, "DESKTOP_SESSION"))
    ensures r.Some? ==> DesktopVar(env).Some? && r.value == Trim(AfterLast(DesktopVar(env).value, ':'))
    ensures r.Some? ==> ':' !in r.value
    ensures r.Some? && |r.value| > 0 ==> !IsSpace(r.value[0]) && !IsSpace(r.value[|r.value| - 1])
  {
    match DesktopVar(env)
    case None => None
    case Some(v) =>
      TrimKeepsOut(AfterLast(v, ':'), ':');
      Some(Trim(AfterLast(v, ':')))
  }

  /** Trimming only removes characters. */
  lemma TrimKeepsOut(s: string, c: char)
    requires c !in s
    ensures c !in Trim(s)
  {
    var r := Trim(s);
    var t := TrimStart(s);
    assert t == s[|s| - |t|..];
    assert r == t[..|r|];
  }

  /** A plain desktop name (no colon, no surrounding blanks) in
      `XDG_CURRENT_DESKTOP` is reported as it is. */
  lemma DetectPlainName(env: Env, v: string)
    requires EnvGet(env, "XDG_CURRENT_DESKTOP") == Some(v) && v != "" && ':' !in v
    requires !IsSpace(v[0]) && !IsSpace(v[|v| - 1])
    ensures DetectDesktop(env) == Some(v)
  {
    AfterLastWhole(v, ':');
    assert TrimStart(v) == v;
    assert TrimEnd(v) == v;
  }

  /** The repository's unit test: with `XDG_CURRENT_DESKTOP=GNOME` the
      detected desktop is `GNOME`, which mentions GNOME in upper case. */
  lemma DetectGnomeTest(env: Env)
    requires EnvGet(env, "XDG_CURRENT_DESKTOP") == Some("GNOME")
    ensures DetectDesktop(env) == Some("GNOME")
    ensures Contains(ToUpper(DetectDesktop(env).value), "GNOME")
  {
    DetectPlainName(env, "GNOME");
    UpperGnome();
  }

  lemma UpperGnome()
    ensures Contains(ToUpper("GNOME"), "GNOME")
  {
    var u := ToUpper("GNOME");
    assert forall i :: 0 <= i < 5 ==> u[i] == "GNOME"[i];
    assert OccursAt(u, "GNOME", 0);
  }

  lemma AfterLastWhole(s: string, sep: char)
    requires sep !in s
    ensures AfterLast(s, sep) == s
  {
  }

  /** The five Python backends. */
  datatype Backend = Gnome | Kde | Feh | Xwallpaper | Swaybg

  /** The program each backend looks up on `PATH` before running it. */
  function Tool(b: Backend): string {
    match b
    case Gnome => "gsettings"
    case Kde => "qdbus"
    case Feh => "feh"
    case Xwallpaper => "xwallpaper"
    case Swaybg => "swaybg"
  }

  /** The `qdbus` arguments that make Plasma evaluate `script`. */
  function EvaluateScript(script: string): seq<string> {
    ["org.kde.plasmashell", "/PlasmaShell", "org.kde.PlasmaShell.evaluateScript", script]
  }

  /** The Plasma script that points every desktop at `uri`. */
  function PlasmaScript(uri: string): string {
    PlasmaHead + uri + PlasmaTail
  }

  const PlasmaHead := "var allDesktops = desktops();for (i=0;i<allDesktops.length;i++) {d = allDesktops[i];"
    + "d.wallpaperPlugin = 'org.kde.image';d.currentConfigGroup = ['Wallpaper','org.kde.image','General'];"
    + "d.writeConfig('Image', '"
  const PlasmaTail := "');}"

  /** The image as the backends see it: `str(path)`, the path as given,
      and `path.absolute()`, which depends on the working directory. */
  datatype Image = Image(path: string, abs: string)

  /** The arguments a backend's tool gets: GNOME and KDE build a `file://`
      URI from the absolute path, the three X11/Wayland tools take the path
      as given. */
  function PyArgs(b: Backend, img: Image): (args: seq<string>)
    ensures 2 <= |args| <= 5
    ensures b.Gnome? || b.Kde? ==> Contains(args[|args| - 1], "file://" + img.abs)
    ensures b.Feh? || b.Xwallpaper? || b.Swaybg? ==> args[1] == img.path
  {
    var uri := "file://" + img.abs;
    match b
    case Gnome =>
      var args := ["set", "org.gnome.desktop.background", "picture-uri", uri];
      assert OccursAt(args[3], uri, 0);
      args
    case Kde =>
      var args := EvaluateScript(PlasmaScript(uri));
      assert OccursAt(args[3], uri, |PlasmaHead|);
      args
    case Feh => ["--bg-scale", img.path]
    case Xwallpaper => ["--stretch", img.path]
    case Swaybg => ["-i", img.path, "-m", "fill"]
  }

  /** The command a backend runs: its own tool with its arguments. */
  function PyCommand(b: Backend, img: Image): Command {
    Command(Tool(b), PyArgs(b, img))
  }

  /** A backend succeeds when its tool is on `PATH` and its command exits
      with status 0 (`runOk`); it runs nothing when the tool is missing. */
  predicate Works(b: Backend, img: Image, onPath: set<string>, runOk: Command -> bool) {
    Tool(b) in onPath && runOk(PyCommand(b, img))
  }

  /** `Works` as a test on backends alone. */
  function WorksFor(img: Image, onPath: set<string>, runOk: Command -> bool): Backend -> bool {
    b => Works(b, img, onPath, runOk)
  }

  const Generic: seq<Backend> := [Gnome, Kde, Feh, Xwallpaper, Swaybg]

  /** The order `set_wallpaper` tries the backends in: GNOME and then KDE
      first when the desktop names them (case-insensitively), then all five. */
  function Plan(desktop: Option<string>): seq<Backend> {
    PlanFor(NamesDesktop(desktop, "GNOME"), NamesDesktop(desktop, "KDE"))
  }

  /** `desktop and name in desktop.upper()`. */
  predicate NamesDesktop(desktop: Option<string>, name: string) {
    PyTruthy(desktop) && Contains(ToUpper(desktop.value), name)
  }

  /** The order of attempts once it is known whether the desktop names
      GNOME (`g`) and KDE (`k`). */
  function PlanFor(g: bool, k: bool): (p: seq<Backend>)
    ensures 5 <= |p| <= 7 && p[|p| - 5..] == Generic
    ensures forall b :: b in Generic ==> b in p
  {
    (if g then [Gnome] else []) + (if k then [Kde] else []) + Generic
  }

  /** GNOME is tried ahead of the generic order exactly when the desktop
      names it, and KDE just before the generic order exactly when the
      desktop names it. */
  lemma PlanPrefix(desktop: Option<string>)
    ensures var g, k := NamesDesktop(desktop, "GNOME"), NamesDesktop(desktop, "KDE");
      PlanShape(Plan(desktop), g, k)
  {
    var g, k := NamesDesktop(desktop, "GNOME"), NamesDesktop(desktop, "KDE");
    PlanForShape(g, k);
  }

  /** The shape of a plan: GNOME ahead of the generic order exactly when
      `g`, KDE just before it exactly when `k`. */
  predicate PlanShape(p: seq<Backend>, g: bool, k: bool) {
    && |p| == 5 + (if g then 1 else 0) + (if k then 1 else 0)
    && (|p| >= 6 && p[0] == Gnome <==> g)
    && (|p| >= 6 && p[|p| - 6] == Kde <==> k)
  }

  lemma PlanForShape(g: bool, k: bool)
    ensures PlanShape(PlanFor(g, k), g, k)
  {
    var p := PlanFor(g, k);
    if g && k {
      assert p == [Gnome, Kde] + Generic;
    } else if g {
      assert p == [Gnome] + Generic;
    } else if k {
      assert p == [Kde] + Generic;
    } else {
      assert p == Generic;
    }
  }

  /** What `set_wallpaper` did: the backends it called, in order, and its
      answer. */
  datatype Attempts = Attempts(called: seq<Backend>, ok: bool)

  /** Calls the backends of `plan` in order up to the first that works. */
  function TryInOrder<B(==)>(plan: seq<B>, works: B -> bool): (a: (seq<B>, bool))
    ensures a.1 <==> exists b :: b in plan && works(b)
    ensures |a.0| <= |plan| && forall i :: 0 <= i < |a.0| ==> a.0[i] == plan[i]
    ensures forall i :: 0 <= i < |a.0| - 1 ==> !works(plan[i])
    ensures a.1 ==> |a.0| > 0 && works(plan[|a.0| - 1]) && works(a.0[|a.0| - 1])
    ensures !a.1 ==> a.0 == plan
  {
    var k := FirstWorking(plan, works);
    if k < |plan| then
      (plan[..k + 1], true)
    else
      assert forall b :: b in plan ==> !works(b) by {
        forall b | b in plan ensures !works(b) {
          var i :| 0 <= i < |plan| && plan[i] == b;
        }
      }
      (plan, false)
  }

  /** The position of the first backend of `plan` that works, or `|plan|`
      when none does. */
  function FirstWorking<B>(plan: seq<B>, works: B -> bool): (k: nat)
    ensures k <= |plan|
    ensures k < |plan| ==> works(plan[k])
    ensures forall i :: 0 <= i < k ==> !works(plan[i])
    decreases |plan|
  {
    if |plan| == 0 then 0
    else if works(plan[0]) then 0
    else
      var k := FirstWorking(plan[1..], works);
      assert forall i :: 1 <= i < k + 1 ==> plan[i] == plan[1..][i - 1];
      k + 1
  }

  /** `prefer or detect_desktop()`. */
  function Chosen(prefer: Option<string>, env: Env): Option<string> {
    if PyTruthy(prefer) then prefer else DetectDesktop(env)
  }

  /** `set_wallpaper`: the preferred desktop when given (and non-empty),
      else the detected one, decides the order of the attempts. */
  function SetWallpaperPy(img: Image, prefer: Option<string>, env: Env, onPath: set<string>,
                          runOk: Command -> bool): (a: Attempts)
    ensures a.ok <==> exists b :: b in Generic && Works(b, img, onPath, runOk)
    ensures a.ok ==> |a.called| > 0 && Works(a.called[|a.called| - 1], img, onPath, runOk)
    ensures forall i :: 0 <= i < |a.called| - 1 ==> !Works(a.called[i], img, onPath, runOk)
  {
    var desktop := Chosen(prefer, env);
    var plan := Plan(desktop);
    PlanOnlyGeneric(desktop);
    var works := WorksFor(img, onPath, runOk);
    var t := TryInOrder(plan, works);
    assert t.1 ==> Works(t.0[|t.0| - 1], img, onPath, runOk) by {
      if t.1 {
        assert works(t.0[|t.0| - 1]);
      }
    }
    Attempts(t.0, t.1)
  }

  /** `set_wallpaper` calls a prefix of its plan, all of it when no backend
      works. */
  lemma AttemptsFollowPlan(img: Image, prefer: Option<string>, env: Env, onPath: set<string>,
                           runOk: Command -> bool)
    ensures var a, plan := SetWallpaperPy(img, prefer, env, onPath, runOk), Plan(Chosen(prefer, env));
      && |a.called| <= |plan| && a.called == plan[..|a.called|]
      && (!a.ok ==> a.called == plan)
  {
    var plan := Plan(Chosen(prefer, env));
    var t := TryInOrder(plan, WorksFor(img, onPath, runOk));
    assert SetWallpaperPy(img, prefer, env, onPath, runOk).called == t.0;
    PrefixOf(t.0, plan);
  }

  /** A sequence that agrees with `s` on its positions is a prefix of `s`. */
  lemma PrefixOf<B>(p: seq<B>, s: seq<B>)
    requires |p| <= |s| && forall i :: 0 <= i < |p| ==> p[i] == s[i]
    ensures p == s[..|p|]
  {
  }

  /** Every plan tries exactly the five backends, some of them twice. */
  lemma PlanOnlyGeneric(desktop: Option<string>)
    ensures forall b :: b in Plan(desktop) <==> b in Generic
  {
    forall b | b in Plan(desktop) ensures b in Generic {
      assert b.Gnome? || b.Kde? || b.Feh? || b.Xwallpaper? || b.Swaybg?;
    }
  }

  /** The preference only reorders the attempts: whether the wallpaper gets
      set does not depend on it. */
  lemma PreferenceOnlyReorders(img: Image, p1: Option<string>, p2: Option<string>, env: Env,
                               onPath: set<string>, runOk: Command -> bool)
    ensures SetWallpaperPy(img, p1, env, onPath, runOk).ok == SetWallpaperPy(img, p2, env, onPath, runOk).ok
  {
  }

  /** When the preferred or detected desktop names GNOME (in any case) and
      gsettings works, that is the only backend called. */
  lemma GnomeFirstOnGnome(img: Image, prefer: Option<string>, env: Env, onPath: set<string>,
                          runOk: Command -> bool)
    requires NamesDesktop(Chosen(prefer, env), "GNOME")
    requires Works(Gnome, img, onPath, runOk)
    ensures SetWallpaperPy(img, prefer, env, onPath, runOk) == Attempts([Gnome], true)
  {
    var plan := Plan(Chosen(prefer, env));
    PlanStartsWithGnome(Chosen(prefer, env));
    var works := WorksFor(img, onPath, runOk);
    assert works(plan[0]);
    FirstWorks(plan, works);
  }

  /** A preference spelled in lower case still puts GNOME first. */
  lemma GnomeFirstOnLowerPreference(img: Image, env: Env, onPath: set<string>, runOk: Command -> bool)
    requires Works(Gnome, img, onPath, runOk)
    ensures SetWallpaperPy(img, Some("gnome"), env, onPath, runOk) == Attempts([Gnome], true)
  {
    assert ToUpper("gnome") == "GNOME";
    assert OccursAt(ToUpper("gnome"), "GNOME", 0);
    GnomeFirstOnGnome(img, Some("gnome"), env, onPath, runOk);
  }

  lemma PlanStartsWithGnome(desktop: Option<string>)
    requires desktop.Some? && desktop.value != "" && Contains(ToUpper(desktop.value), "GNOME")
    ensures Plan(desktop)[0] == Gnome
  {
  }

  lemma FirstWorks<B>(plan: seq<B>, works: B -> bool)
    requires |plan| > 0 && works(plan[0])
    ensures TryInOrder(plan, works) == ([plan[0]], true)
  {
    assert FirstWorking(plan, works) == 0;
    assert plan[..1] == [plan[0]];
  }

  // ---- C++ ----

  /** The desktops `detectDesktopEnvironment` tells apart. */
  datatype CppDesktop = CGnome | CKde | CX11 | CWayland | CUnknown

  /** `env.value(name, "").toLower()`. */
  function EnvLower(env: Env, name: string): string {
    ToLower(EnvGet(env, name).GetOr(""))
  }

  /** `detectDesktopEnvironment`: GNOME when any of three variables mentions
      it, then KDE, then the session type. */
  function DetectCpp(env: Env): (d: CppDesktop)
    ensures var xdg, session, gdm := EnvLower(env, "XDG_CURRENT_DESKTOP"), EnvLower(env, "DESKTOP_SESSION"), EnvLower(env, "GDMSESSION");
      && (d == CGnome <==> Contains(xdg, "gnome") || Contains(session, "gnome") || Contains(gdm, "gnome"))
      && (d == CKde <==> !(d == CGnome) && (Contains(xdg, "kde") || Contains(session, "plasma") || Contains(session, "kde")))
    ensures d == CX11 ==> EnvLower(env, "XDG_SESSION_TYPE") == "x11"
    ensures d == CWayland ==> EnvLower(env, "XDG_SESSION_TYPE") == "wayland"
    ensures d == CUnknown ==> EnvLower(env, "XDG_SESSION_TYPE") !in {"x11", "wayland"}
  {
    var xdg := EnvLower(env, "XDG_CURRENT_DESKTOP");
    var session := EnvLower(env, "DESKTOP_SESSION");
    var gdm := EnvLower(env, "GDMSESSION");
    if Contains(xdg, "gnome") || Contains(session, "gnome") || Contains(gdm, "gnome") then CGnome
    else if Contains(xdg, "kde") || Contains(session, "plasma") || Contains(session, "kde") then CKde
    else
      var kind := EnvLower(env, "XDG_SESSION_TYPE");
      if kind == "x11" then CX11 else if kind == "wayland" then CWayland else CUnknown
  }

  /** What a started process did: whether it started, how long it ran, and
      its exit code. */
  datatype Run = Run(started: bool, elapsedMs: nat, exitCode: int)

  /** `runCommand`: success when the process starts, finishes within five
      seconds and exits with 0. */
  predicate RunCommand(r: Run) {
    r.started && r.elapsedMs <= 5000 && r.exitCode == 0
  }

  /** The `which` probe passes when `exitCode()` reads 0, which is also what
      it reads when `which` did not start or had not finished within the
      default 30 seconds. */
  predicate WhichPasses(r: Run) {
    !r.started || r.elapsedMs > 30000 || r.exitCode == 0
  }

  /** The result of `setWallpaper`, with the commands it started. */
  datatype CppOutcome = CppOutcome(trace: seq<Command>, ok: bool)

  function GnomeCommands(abs: string): seq<Command> {
    [Command("gsettings", ["set", "org.gnome.desktop.background", "picture-uri", "file://" + abs]),
     Command("gsettings", ["set", "org.gnome.desktop.background", "picture-uri-dark", "file://" + abs])]
  }

  /** A probed X11 tool: `which`, then the tool when the probe passes. */
  function Probed(tool: string, args: seq<string>, proc: Command -> Run): (o: CppOutcome)
    ensures o.ok ==> |o.trace| == 2 && o.trace[1] == Command(tool, args) && RunCommand(proc(o.trace[1]))
    ensures 1 <= |o.trace| <= 2 && o.trace[0] == Command("which", [tool])
    ensures |o.trace| == 2 <==> WhichPasses(proc(Command("which", [tool])))
    ensures |o.trace| == 2 ==> o.trace[1] == Command(tool, args)
    ensures o.ok <==> |o.trace| == 2 && RunCommand(proc(Command(tool, args)))
  {
    var probe := Command("which", [tool]);
    if !WhichPasses(proc(probe)) then CppOutcome([probe], false)
    else CppOutcome([probe, Command(tool, args)], RunCommand(proc(Command(tool, args))))
  }

  /** `setWallpaper`: nothing unless the path names a regular file; then the
      detected desktop picks the method. GNOME always sets both the light
      and dark picture and succeeds if either works; Wayland is not
      supported. */
  function SetWallpaperCpp(isFile: bool, abs: string, env: Env, proc: Command -> Run): (o: CppOutcome)
    ensures !isFile ==> o == CppOutcome([], false)
    ensures isFile && DetectCpp(env) == CGnome ==>
      o.trace == GnomeCommands(abs) && (o.ok <==> RunCommand(proc(o.trace[0])) || RunCommand(proc(o.trace[1])))
    ensures isFile && DetectCpp(env) == CWayland ==> o == CppOutcome([], false)
    ensures isFile && DetectCpp(env) == CKde ==> o == CppKde(abs, proc)
    ensures isFile && (DetectCpp(env) == CX11 || DetectCpp(env) == CUnknown) ==> o == CppX11(abs, proc)
    ensures o.ok ==> isFile && DetectCpp(env) != CWayland && exists c :: c in o.trace && RunCommand(proc(c))
  {
    if !isFile then CppOutcome([], false)
    else match DetectCpp(env)
      case CGnome =>
        var cs := GnomeCommands(abs);
        CppOutcome(cs, RunCommand(proc(cs[0])) || RunCommand(proc(cs[1])))
      case CKde => CppKde(abs, proc)
      case CWayland => CppOutcome([], false)
      case _ => CppX11(abs, proc)
  }

  /** The KDE method: one Plasma script through `qdbus`. */
  function CppKde(abs: string, proc: Command -> Run): (o: CppOutcome)
    ensures o.trace == [Command("qdbus", EvaluateScript(CppPlasmaScript(abs)))]
    ensures o.ok <==> RunCommand(proc(o.trace[0]))
  {
    var c := Command("qdbus", EvaluateScript(CppPlasmaScript(abs)));
    CppOutcome([c], RunCommand(proc(c)))
  }

  /** The X11 fallback: `feh`, and `xwallpaper` only when `feh` did not
      succeed. */
  function CppX11(abs: string, proc: Command -> Run): (o: CppOutcome)
    ensures o.ok ==> exists c :: c in o.trace && RunCommand(proc(c))
    ensures |o.trace| >= 1 && o.trace[0] == Command("which", ["feh"])
    ensures var feh := Probed("feh", ["--bg-scale", abs], proc);
      var xw := Probed("xwallpaper", ["--zoom", abs], proc);
      && (feh.ok ==> o == feh)
      && (!feh.ok ==> o.trace == feh.trace + xw.trace)
      && (o.ok <==> feh.ok || xw.ok)
  {
    var feh := Probed("feh", ["--bg-scale", abs], proc);
    if feh.ok then
      assert feh.trace[1] in feh.trace;
      feh
    else
      var xw := Probed("xwallpaper", ["--zoom", abs], proc);
      var trace := feh.trace + xw.trace;
      assert xw.ok ==> trace[|feh.trace| + 1] == xw.trace[1];
      CppOutcome(trace, xw.ok)
  }

  /** The C++ Plasma script for the image at `abs`. */
  function CppPlasmaScript(abs: string): string {
    CppPlasmaHead + abs + PlasmaTail
  }

  const CppPlasmaHead := "var allDesktops = desktops();for (i=0; i<allDesktops.length; i++) {    d = allDesktops[i];"
    + "    d.wallpaperPlugin = 'org.kde.image';"
    + "    d.currentConfigGroup = Array('Wallpaper', 'org.kde.image', 'General');"
    + "    d.writeConfig('Image', 'file://"

  // ---- the two detections ----

  lemma UpperToLower(c: char, u: char)
    requires 'A' <= u <= 'Z' && ToUpperChar(c) == u
    ensures ToLowerChar(c) == (u as int + 32) as char
  {
  }

  /** Trimming cuts a slice out of the text. */
  lemma TrimIsSlice(a: string) returns (lo: nat)
    ensures lo + |Trim(a)| <= |a| && Trim(a) == a[lo..lo + |Trim(a)|]
  {
    var t := TrimStart(a);
    assert t == a[|a| - |t|..];
    assert Trim(a) == t[..|Trim(a)|];
    lo := |a| - |t|;
  }

  /** A slice of `v` that mentions GNOME in upper case makes `v` mention
      it in lower case. */
  lemma SliceMentionsGnome(v: string, r: string, lo: nat)
    requires lo + |r| <= |v| && r == v[lo..lo + |r|]
    requires Contains(ToUpper(r), "GNOME")
    ensures Contains(ToLower(v), "gnome")
  {
    var i :| 0 <= i <= |r| - 5 && OccursAt(ToUpper(r), "GNOME", i);
    var low := ToLower(v);
    forall j | 0 <= j < 5
      ensures low[lo + i + j] == "gnome"[j]
    {
      assert ToUpper(r)[i + j] == "GNOME"[j];
      assert r[i + j] == v[lo + i + j];
      UpperToLower(v[lo + i + j], "GNOME"[j]);
    }
    assert OccursAt(low, "gnome", lo + i);
  }

  /** A slice of a suffix of `v` that mentions GNOME in upper case makes
      `v` mention it in lower case. */
  lemma SuffixSliceMentionsGnome(v: string, a: string, t: string, k: nat)
    requires |a| <= |v| && a == v[|v| - |a|..] && k + |t| <= |a| && t == a[k..k + |t|]
    requires Contains(ToUpper(t), "GNOME")
    ensures Contains(ToLower(v), "gnome")
  {
    var lo := Seqs.SliceOfSuffixAt(v, a, t, k);
    SliceMentionsGnome(v, t, lo);
  }

  /** A text with a suffix that mentions GNOME in upper case once trimmed
      mentions it in lower case. */
  lemma SegmentMentionsGnome(v: string, a: string)
    requires |a| <= |v| && a == v[|v| - |a|..]
    requires Contains(ToUpper(Trim(a)), "GNOME")
    ensures Contains(ToLower(v), "gnome")
  {
    var k := TrimIsSlice(a);
    SuffixSliceMentionsGnome(v, a, Trim(a), k);
  }

  /** The C++ detection reports GNOME when the variable the Python
      detection reads mentions it. */
  lemma CppSeesSource(env: Env, v: string)
    requires DesktopVar(env) == Some(v) && Contains(ToLower(v), "gnome")
    ensures DetectCpp(env) == CGnome
  {
    if PyTruthy(EnvGet(env, "XDG_CURRENT_DESKTOP")) {
      assert EnvLower(env, "XDG_CURRENT_DESKTOP") == ToLower(v);
    } else {
      assert EnvLower(env, "DESKTOP_SESSION") == ToLower(v);
    }
  }

  /** When the Python detection reports a desktop naming GNOME (in any
      case), the C++ detection reports GNOME too. */
  lemma GnomeDetectionsAgree(env: Env)
    requires DetectDesktop(env).Some? && Contains(ToUpper(DetectDesktop(env).value), "GNOME")
    ensures DetectCpp(env) == CGnome
  {
    var v := DesktopVar(env).value;
    SegmentMentionsGnome(v, AfterLast(v, ':'));
    CppSeesSource(env, v);
  }
}
