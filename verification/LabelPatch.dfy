/** The JSON patches with which the strategies change node labels: RFC 6902 operations on the members of
    /metadata/labels, whose names are escaped as section 3 of RFC 6901 asks. */
module LabelPatch {
  import opened Text

  const LABELS_PATH := "/metadata/labels/"

  type Labels = map<string, string>

  datatype PatchValue = PatchValue(op: string, path: string, value: string)

  /** strings.ReplaceAll(name, "/", "~1"). */
  function Escape(name: string): string {
    if name == "" then ""
    else (if name[0] == '/' then "~1" else [name[0]]) + Escape(name[1..])
  }

  /** What a JSON pointer's last token refers to. */
  function Unescape(token: string): string {
    if token == "" then ""
    else if |token| >= 2 && token[0] == '~' && token[1] == '1' then "/" + Unescape(token[2..])
    else if |token| >= 2 && token[0] == '~' && token[1] == '0' then "~" + Unescape(token[2..])
    else [token[0]] + Unescape(token[1..])
  }

  lemma {:induction false} UnescapeEscape(name: string)
    requires '~' !in name
    ensures Unescape(Escape(name)) == name
  {
    if name != "" {
      assert '~' !in name[1..];
      UnescapeEscape(name[1..]);
      if name[0] == '/' {
        assert Escape(name)[2..] == Escape(name[1..]);
      } else {
        assert name[0] != '~';
        assert Escape(name)[0] == name[0] && Escape(name)[1..] == Escape(name[1..]);
      }
      assert name == [name[0]] + name[1..];
    }
  }

  lemma {:induction false} PlainToken(name: string)
    requires '~' !in name && '/' !in name
    ensures Escape(name) == name
  {
    if name != "" {
      PlainToken(name[1..]);
      assert name == [name[0]] + name[1..];
    }
  }

  function TargetOf(path: string): Option<string> {
    if HasPrefix(path, LABELS_PATH) then Some(Unescape(path[|LABELS_PATH|..])) else None
  }

  /** One operation: "add" sets a member, "replace" and "remove" need it to exist. */
  function ApplyOne(labels: Labels, p: PatchValue): Option<Labels> {
    match TargetOf(p.path)
    case None => None
    case Some(name) =>
      if p.op == "add" then Some(labels[name := p.value])
      else if name !in labels then None
      else if p.op == "replace" then Some(labels[name := p.value])
      else if p.op == "remove" then Some(labels - {name})
      else None
  }

  /** A patch is applied in order and as a whole: one invalid operation refuses it. */
  function Apply(labels: Labels, patch: seq<PatchValue>): Option<Labels> {
    if patch == [] then Some(labels)
    else
      var before := Apply(labels, patch[..|patch| - 1]);
      if before.None? then None else ApplyOne(before.value, patch[|patch| - 1])
  }

  lemma ApplyMore(labels: Labels, patch: seq<PatchValue>, p: PatchValue)
    ensures Apply(labels, patch + [p])
         == var before := Apply(labels, patch); if before.None? then None else ApplyOne(before.value, p)
  {
    assert (patch + [p])[..|patch + [p]| - 1] == patch;
  }

  /** A node as the API server lists it, and what a round of enforcement did to it: whether a patch was sent,
      whether it failed, and the labels now. */
  datatype Node = Node(name: string, labels: Labels)

  datatype NodeResult = NodeResult(patched: bool, failed: bool, labels: Labels)

  function CreateLabelPatchValue(op: string, name: string, value: string): PatchValue {
    PatchValue(op, LABELS_PATH + name, value)
  }

  /** The patch value for an escaped label name refers to that label. */
  lemma RefersTo(op: string, name: string, value: string)
    requires '~' !in name
    ensures TargetOf(CreateLabelPatchValue(op, Escape(name), value).path) == Some(name)
  {
    var path := LABELS_PATH + Escape(name);
    assert path[..|LABELS_PATH|] == LABELS_PATH && path[|LABELS_PATH|..] == Escape(name);
    UnescapeEscape(name);
  }

  ghost predicate NoTilde(names: set<string>) {
    forall n :: n in names ==> '~' !in n
  }
}
