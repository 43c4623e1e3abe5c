/** The Markdown renderer's admonition block: a Bootstrap alert whose
    colour class is derived from the admonition's name. */
module Renderers {
  import opened Wrappers
  import opened Html

  /** The Bootstrap class suffix for an admonition name: the three mild
      names share `info`, `important` becomes `primary`, any other name is
      used as it is. */
  function MapName(name: string): (m: string)
    ensures m == "info" <==> name in ["tip", "hint", "note", "info"]
    ensures m == "primary" <==> name in ["important", "primary"]
    ensures name !in ["tip", "hint", "note", "important"] ==> m == name
  {
    if name in ["tip", "hint", "note"] then "info"
    else if name == "important" then "primary"
    else name
  }

  const AlertPrefix := "<div class='alert alert-"
  const AlertSuffix := "</div>"

  /** `BootstrapAdmonitionRenderer.admonition`. */
  function Admonition(text: string, name: string): string
  {
    AlertPrefix + MapName(name) + "'>" + text + AlertSuffix
  }

  /** The class suffix and the body of an alert, when `s` is one. */
  function ReadAdmonition(s: string): Option<(string, string)>
  {
    if |s| < |AlertPrefix| + |AlertSuffix| || s[..|AlertPrefix|] != AlertPrefix then None
    else
      var rest := s[|AlertPrefix|..];
      var k := Find(rest, '\'');
      if k + 2 + |AlertSuffix| <= |rest| && rest[k..k + 2] == "'>" && rest[|rest| - |AlertSuffix|..] == AlertSuffix
      then Some((rest[..k], rest[k + 2..|rest| - |AlertSuffix|]))
      else None
  }

  /** Mapping a name twice is mapping it once: the mapped names are fixed
      points. */
  lemma MapNameIdempotent(name: string)
    ensures MapName(MapName(name)) == MapName(name)
  {
  }

  lemma MapNameKeepsQuotesOut(name: string)
    requires forall i :: 0 <= i < |name| ==> name[i] != '\''
    ensures forall i :: 0 <= i < |MapName(name)| ==> MapName(name)[i] != '\''
  {
    if name in ["tip", "hint", "note"] {
      assert MapName(name) == "info";
    } else if name == "important" {
      assert MapName(name) == "primary";
    }
  }

  /** Splitting `m + "'>" + text + AlertSuffix` at its first quote. */
  lemma SplitAtQuote(m: string, text: string)
    requires forall i :: 0 <= i < |m| ==> m[i] != '\''
    ensures var rest := m + "'>" + text + AlertSuffix;
            && Find(rest, '\'') == |m|
            && rest[..|m|] == m
            && rest[|m|..|m| + 2] == "'>"
            && rest[|rest| - |AlertSuffix|..] == AlertSuffix
            && rest[|m| + 2..|rest| - |AlertSuffix|] == text
  {
    var rest := m + "'>" + text + AlertSuffix;
    assert rest[|m|] == '\'';
    assert forall i :: 0 <= i < |m| ==> rest[i] == m[i];
  }

  /** An alert reads back as the mapped name and the body it wraps,
      provided the name holds no single quote (which would end the class
      attribute early). */
  lemma AdmonitionRoundTrip(text: string, name: string)
    requires forall i :: 0 <= i < |name| ==> name[i] != '\''
    ensures ReadAdmonition(Admonition(text, name)) == Some((MapName(name), text))
  {
    var m := MapName(name);
    MapNameKeepsQuotesOut(name);
    SplitAtQuote(m, text);
    var s := Admonition(text, name);
    assert s == AlertPrefix + (m + "'>" + text + AlertSuffix);
    assert s[..|AlertPrefix|] == AlertPrefix;
    assert s[|AlertPrefix|..] == m + "'>" + text + AlertSuffix;
  }

  /** The renderer's mapping on three names. */
  lemma AdmonitionExamples()
    ensures Admonition("x", "tip") == "<div class='alert alert-info'>x</div>"
    ensures Admonition("x", "important") == "<div class='alert alert-primary'>x</div>"
    ensures Admonition("x", "warning") == "<div class='alert alert-warning'>x</div>"
  {
    AlertExample("info");
    AlertExample("primary");
    AlertExample("warning");
    assert MapName("warning") == "warning" by {
      assert "warning" != "tip" && "warning" != "hint" && "warning" != "note" && "warning" != "important";
    }
  }

  lemma AlertExample(m: string)
    ensures AlertPrefix + m + "'>" + "x" + AlertSuffix == "<div class='alert alert-" + m + "'>x</div>"
  {
  }
}
