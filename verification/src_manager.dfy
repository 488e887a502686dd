/** `SrcManager`: the Java source of the generated configuration component,
    the template `TMPL` filled with the class name, the package, the
    configuration pid and the manager's three pieces of code. */
module SrcManager {
  import opened Results
  import opened JavaText
  import opened AnnotationManager

  /** `Constants.TARGET_CLASS_NAME`. */
  const TargetClassName := "AppConfiguration"

  const CrLf := "\r\n"

  /** The lines between the package declaration and the component annotation,
      up to the annotation's first element. */
  const Imports := CrLf + CrLf + "import java.util.Map;" + CrLf + CrLf
    + "import org.osgi.service.component.annotations.Activate;" + CrLf
    + "import org.osgi.service.component.annotations.Component;" + CrLf
    + "import org.osgi.service.component.annotations.Modified;" + CrLf
    + CrLf + "/** Generated */" + CrLf
    + "@Component(immediate = true, "

  /** The line that opens the block the activate part goes into. */
  const IfOpen := "        if (configuration != null) {" + CrLf

  /** From the blank line after the fields to the start of the activate part. */
  const ActivateOpen := CrLf + CrLf + "    @Activate" + CrLf + "    @Modified" + CrLf
    + "    protected void activate(final Map<String, Object> configuration) {" + CrLf
    + IfOpen

  /** Closes the `if` and `activate`. */
  const ActivateClose := CrLf + "        }" + CrLf + "    }" + CrLf

  /** Closes the class. */
  const ClassClose := CrLf + CrLf + "}"

  /** `package %2$s;`. */
  function PackageLine(pkg: string): string
  {
    "package " + pkg + ";"
  }

  /** The template from the imports to the blank line after the `CONFIG_PID`
      constant, as fixed pieces around the class name `%1$s` (three times) and
      the pid `%3$s`. */
  function Declarations(cls: string, pid: string): seq<string>
  {
    [ Imports,
      "configurationPid = ", cls, ".CONFIG_PID",
      ", ",
      "service = { ", cls, ".class }",
      ")" + CrLf,
      "public class ", cls, " {",
      CrLf + "    public static final String ",
      "CONFIG_PID = \"", pid, "\";",
      CrLf + CrLf ]
  }

  /** Everything before the field definitions; it depends on neither of the
      manager's three parts. */
  function Head(cls: string, pkg: string, pid: string): string
  {
    PackageLine(pkg) + Concat(Declarations(cls, pid))
  }

  /** `TMPL` with its six arguments substituted: `String.format` copies the
      arguments as they are, whatever characters they hold. */
  function Fill(cls: string, pkg: string, pid: string, activate: string, fields: string, getters: string): string
  {
    Head(cls, pkg, pid) + fields + ActivateOpen + activate + ActivateClose + getters + ClassClose
  }

  /** `create`: the template filled with `AppConfiguration`, the package, the
      pid, the activate part, the field definitions and the getters. The
      arguments are computed in that order; the manager's three parts fail
      together, exactly when a method name is not a valid field id, so the
      failure is the activate part's. */
  function Create(m: Manager, pkg: string, pid: string): (r: Result<string>)
    ensures r.Ok? <==> AllValid(m)
    ensures !r.Ok? ==> r == ActivatePart(m)
    ensures r.Ok? ==> r.value == Fill(TargetClassName, pkg, pid, ActivatePart(m).value, FieldDefs(m).value, Getters(m).value)
  {
    var activate :- ActivatePart(m);
    Ok(Fill(TargetClassName, pkg, pid, activate, FieldDefs(m).value, Getters(m).value))
  }

  /** For each method, the created source reads the configuration under
      the method's recorded id. */
  lemma CreateReadsKeys(m: Manager, pkg: string, pid: string, i: nat)
    requires AllValid(m) && i < |m.methods|
    ensures Create(m, pkg, pid).Ok? && Contains(Create(m, pkg, pid).value, KeyLookup(m.methods[i].adId))
  {
    var activate := ActivatePart(m).value;
    var key := KeyLookup(m.methods[i].adId);
    LineHasKey(m.methods[i]);
    ActivatePartHasLine(m, i);
    ContainsTrans(activate, ActivateLine(m.methods[i]).value, key);
    FillContainsBlocks(TargetClassName, pkg, pid, activate, FieldDefs(m).value, Getters(m).value);
    ContainsTrans(Create(m, pkg, pid).value, activate, key);
  }

  /** The text opens with the package declaration. */
  lemma FillStartsWithPackage(cls: string, pkg: string, pid: string, activate: string, fields: string, getters: string)
    ensures StartsWith(Fill(cls, pkg, pid, activate, fields, getters), "package " + pkg + ";")
  {
    var t := Fill(cls, pkg, pid, activate, fields, getters);
    var p := PackageLine(pkg);
    FillLayout(cls, pkg, pid, activate, fields, getters);
    assert Head(cls, pkg, pid)[..|p|] == p;
    assert t[..|p|] == t[..|Head(cls, pkg, pid)|][..|p|];
  }

  /** The class name is used three times: as the pid's qualifier and as the
      service in `@Component`, and as the name of the class; the pid appears
      verbatim in `CONFIG_PID`. */
  lemma FillNamesClassAndPid(cls: string, pkg: string, pid: string, activate: string, fields: string, getters: string)
    ensures var t := Fill(cls, pkg, pid, activate, fields, getters);
      && Contains(t, "configurationPid = " + cls + ".CONFIG_PID")
      && Contains(t, "service = { " + cls + ".class }")
      && Contains(t, "public class " + cls + " {")
      && Contains(t, "CONFIG_PID = \"" + pid + "\";")
  {
    FillContains(cls, pkg, pid, activate, fields, getters, 1);
    FillContains(cls, pkg, pid, activate, fields, getters, 5);
    FillContains(cls, pkg, pid, activate, fields, getters, 9);
    FillContains(cls, pkg, pid, activate, fields, getters, 13);
  }

  /** Three adjacent pieces of the declarations occur in the filled text. */
  lemma FillContains(cls: string, pkg: string, pid: string, activate: string, fields: string, getters: string, k: nat)
    requires k + 3 <= |Declarations(cls, pid)|
    ensures var ds := Declarations(cls, pid);
      Contains(Fill(cls, pkg, pid, activate, fields, getters), ds[k] + ds[k + 1] + ds[k + 2])
  {
    var ds := Declarations(cls, pid);
    FillLayout(cls, pkg, pid, activate, fields, getters);
    HeadContains(ds, k, PackageLine(pkg));
    ContainsInPrefix(Fill(cls, pkg, pid, activate, fields, getters), |Head(cls, pkg, pid)|, ds[k] + ds[k + 1] + ds[k + 2]);
  }

  /** Three adjacent pieces of the declarations occur in the head. */
  lemma HeadContains(ds: seq<string>, k: nat, before: string)
    requires k + 3 <= |ds|
    ensures Contains(before + Concat(ds), ds[k] + ds[k + 1] + ds[k + 2])
  {
    var x := ds[k] + ds[k + 1] + ds[k + 2];
    ContainsAdjacent(ds, k);
    var i :| 0 <= i <= |Concat(ds)| && StartsWith(Concat(ds)[i..], x);
    assert (before + Concat(ds))[|before| + i..] == Concat(ds)[i..];
  }

  /** The blocks sit at fixed places: the field definitions right after the
      head, the activate part inside `if (configuration != null) {`, the
      getters right before the class closes. */
  lemma FillLayout(cls: string, pkg: string, pid: string, activate: string, fields: string, getters: string)
    ensures
      var t := Fill(cls, pkg, pid, activate, fields, getters);
      var i := |Head(cls, pkg, pid)|;
      var j := i + |fields| + |ActivateOpen|;
      && j + |activate| + |ActivateClose| + |getters| + |ClassClose| == |t|
      && t[..i] == Head(cls, pkg, pid)
      && t[i..i + |fields|] == fields
      && EndsWith(t[..j], IfOpen)
      && t[j..j + |activate|] == activate
      && t[j + |activate|..j + |activate| + |ActivateClose|] == ActivateClose
      && t[|t| - |ClassClose| - |getters|..|t| - |ClassClose|] == getters
      && EndsWith(t, ClassClose)
  {
    Layout(Head(cls, pkg, pid), fields, ActivateOpen, activate, ActivateClose, getters, ClassClose);
    OpenEndsWithIf();
    EndsWithAfter(Head(cls, pkg, pid) + fields, ActivateOpen, IfOpen);
  }

  lemma EndsWithAfter(x: string, y: string, s: string)
    requires EndsWith(y, s)
    ensures EndsWith(x + y, s)
  {
    assert (x + y)[|x + y| - |s|..] == y[|y| - |s|..];
  }

  /** Each of the manager's three parts occurs verbatim in the filled text. */
  lemma FillContainsBlocks(cls: string, pkg: string, pid: string, activate: string, fields: string, getters: string)
    ensures var t := Fill(cls, pkg, pid, activate, fields, getters);
      Contains(t, fields) && Contains(t, activate) && Contains(t, getters)
  {
    PartsOccur(Head(cls, pkg, pid), fields, ActivateOpen, activate, ActivateClose, getters, ClassClose);
  }

  /** The second, fourth and sixth of seven parts occur in their concatenation. */
  lemma PartsOccur(h: string, f: string, ao: string, a: string, ac: string, g: string, cc: string)
    ensures var t := h + f + ao + a + ac + g + cc;
      Contains(t, f) && Contains(t, a) && Contains(t, g)
  {
    var t := h + f + ao + a + ac + g + cc;
    assert t == h + f + (ao + a + ac + g + cc);
    ContainsMiddle(h, f, ao + a + ac + g + cc);
    assert t == (h + f + ao) + a + (ac + g + cc);
    ContainsMiddle(h + f + ao, a, ac + g + cc);
    ContainsMiddle(h + f + ao + a + ac, g, cc);
  }

  lemma OpenEndsWithIf()
    ensures EndsWith(ActivateOpen, IfOpen)
  {
    var x := CrLf + CrLf + "    @Activate" + CrLf + "    @Modified" + CrLf
      + "    protected void activate(final Map<String, Object> configuration) {" + CrLf;
    SuffixEndsWith(x, IfOpen);
  }

  /** Where the seven parts of a filled template sit, whatever they hold. */
  lemma Layout(h: string, f: string, ao: string, a: string, ac: string, g: string, cc: string)
    ensures
      var t := h + f + ao + a + ac + g + cc;
      var i := |h|;
      var j := i + |f| + |ao|;
      && j + |a| + |ac| + |g| + |cc| == |t|
      && t[..i] == h
      && t[i..i + |f|] == f
      && t[..j] == h + f + ao
      && t[j..j + |a|] == a
      && t[j + |a|..j + |a| + |ac|] == ac
      && t[|t| - |cc| - |g|..|t| - |cc|] == g
      && t[|t| - |cc|..] == cc
  {
  }

  /** The three blocks can be read back: two texts filled from the same
      head with blocks of the same lengths are equal only if the blocks are. */
  lemma FillInjective(cls: string, pkg: string, pid: string,
                      a1: string, f1: string, g1: string, a2: string, f2: string, g2: string)
    requires |f1| == |f2| && |a1| == |a2|
    requires Fill(cls, pkg, pid, a1, f1, g1) == Fill(cls, pkg, pid, a2, f2, g2)
    ensures a1 == a2 && f1 == f2 && g1 == g2
  {
    PartsInjective(Head(cls, pkg, pid), ActivateOpen, ActivateClose, ClassClose, a1, f1, g1, a2, f2, g2);
  }

  /** Seven parts with the same fixed first, third, fifth and seventh parts:
      equal concatenations with equal lengths of the second and fourth parts
      have equal variable parts. */
  lemma PartsInjective(h: string, ao: string, ac: string, cc: string,
                       a1: string, f1: string, g1: string, a2: string, f2: string, g2: string)
    requires |f1| == |f2| && |a1| == |a2|
    requires h + f1 + ao + a1 + ac + g1 + cc == h + f2 + ao + a2 + ac + g2 + cc
    ensures a1 == a2 && f1 == f2 && g1 == g2
  {
    Layout(h, f1, ao, a1, ac, g1, cc);
    Layout(h, f2, ao, a2, ac, g2, cc);
  }
}
