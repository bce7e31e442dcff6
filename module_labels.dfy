/** The module selector of the quiz tab: each module is shown as
    "Module {n}: {title}" and the chosen label is parsed back to `n`. */
module ModuleLabels {
  import opened Wrappers
  import opened PyStr

  const LabelPrefix: string := "Module "

  /** `f"Module {module['module_number']}: {module['module_title']}"`. */
  function FormatModuleLabel(n: int, title: string): string {
    LabelPrefix + IntToString(n) + ": " + title
  }

  /** `int(label.split(":")[0].replace("Module ", "").strip())`, with `None`
      where `int` raises ValueError. */
  function ParseModuleLabel(shown: string): Option<int> {
    ParseInt(Strip(RemoveAll(Split(shown, ':')[0], LabelPrefix)))
  }

  /** Removing the prefix once leaves a text in which it cannot start again. */
  lemma RemovePrefix(s: string)
    requires 'M' !in s
    ensures RemoveAll(LabelPrefix + s, LabelPrefix) == s
  {
    var t := LabelPrefix + s;
    assert t[..|LabelPrefix|] == LabelPrefix;
    assert t[|LabelPrefix|..] == s;
    RemoveAllAbsent(s, LabelPrefix);
  }

  /** Parsing a formatted label gives back the module number, whatever the
      title holds (colons included). */
  lemma LabelRoundTrip(n: int, title: string)
    ensures ParseModuleLabel(FormatModuleLabel(n, title)) == Some(n)
  {
    var digits := IntToString(n);
    IntToStringNoSpace(n);
    var head := LabelPrefix + digits;
    assert ':' !in head by {
      assert forall i :: 0 <= i < |head| ==> head[i] == (if i < |LabelPrefix| then LabelPrefix[i] else digits[i - |LabelPrefix|]);
    }
    assert FormatModuleLabel(n, title) == head + [':'] + (" " + title);
    SplitAtFirst(head, ':', " " + title);
    RemovePrefix(digits);
    StripKeeps(digits);
    ParseIntToString(n);
  }
}
