/**
 * The prompt builder and `extractKeys` of the language-model helpers
 * (`langchain/prompt.go`, `langchain/main.go`). The calls to the language
 * model are not part of this model.
 */
module Langchain {
  import opened Text

  /** `PromptBuilder`: the parts of a prompt, in the order they were added. */
  class PromptBuilder {
    var parts: seq<string>

    constructor ()
      ensures parts == []
    {
      parts := [];
    }

    /** `Add`: appends the part and hands back the same builder, so calls chain. */
    method Add(part: string) returns (r: PromptBuilder)
      modifies this
      ensures parts == old(parts) + [part]
      ensures r == this
      ensures GetPrompt() == if old(parts) == [] then part else old(GetPrompt()) + " " + part
    {
      JoinSnoc(parts, part, " ");
      parts := parts + [part];
      r := this;
    }

    /** `GetPrompt`: the parts separated by single spaces. */
    function GetPrompt(): (r: string)
      reads this
      ensures parts == [] ==> r == ""
      ensures |parts| >= 1 && (forall i :: 0 <= i < |parts| ==> ' ' !in parts[i]) ==> Split(r, ' ') == parts
    {
      if |parts| >= 1 && (forall i :: 0 <= i < |parts| ==> ' ' !in parts[i]) then
        SplitOfJoin(parts, ' ');
        Join(parts, " ")
      else
        Join(parts, " ")
    }
  }

  /** A prompt built from parts without spaces splits back into those parts. */
  lemma PromptSplitsIntoItsParts(parts: seq<string>)
    requires |parts| >= 1 && forall i :: 0 <= i < |parts| ==> ' ' !in parts[i]
    ensures Split(Join(parts, " "), ' ') == parts
  {
    SplitOfJoin(parts, ' ');
  }

  /** `extractKeys`: the map's keys, each exactly once, in an order the map chooses. */
  method ExtractKeys<V>(m: map<string, V>) returns (keys: seq<string>)
    ensures |keys| == |m|
    ensures forall k :: k in m <==> k in keys
    ensures forall i, j :: 0 <= i < j < |keys| ==> keys[i] != keys[j]
  {
    keys := [];
    var todo := m.Keys;
    while todo != {}
      invariant todo <= m.Keys
      invariant forall k :: k in m <==> k in keys || k in todo
      invariant forall k :: k in keys ==> k !in todo
      invariant forall i, j :: 0 <= i < j < |keys| ==> keys[i] != keys[j]
      invariant |keys| + |todo| == |m.Keys|
      decreases |todo|
    {
      var k :| k in todo;
      keys := keys + [k];
      todo := todo - {k};
    }
  }
}
