/** The part of the browser document the analyzer's PDF export touches: elements with a
    `contenteditable` flag and a class list, the preview container, `querySelectorAll` and the
    rasterizer. */
module Dom {
  import opened Common

  /** A rendered element. Whether it is editable is fixed when it is rendered; its class list
      is changed in place. The class list is kept as a set: `DOMTokenList.add` and `remove`
      never create duplicates, and nothing modelled here depends on the order of classes. */
  class Element {
    const contentEditable: bool
    var classList: set<string>

    constructor (editable: bool, classes: set<string>)
      ensures contentEditable == editable && classList == classes
    {
      contentEditable := editable;
      classList := classes;
    }
  }

  /** No element occurs twice. */
  ghost predicate Distinct(els: seq<Element>)
  {
    forall i, j :: 0 <= i < j < |els| ==> els[i] != els[j]
  }

  /** The element behind `resumePreviewRef.current`, with the elements below it in document order. */
  class Preview {
    const descendants: seq<Element>

    /** A document tree holds every element once. */
    ghost predicate Valid()
    {
      Distinct(descendants)
    }

    constructor (nodes: seq<Element>)
      requires Distinct(nodes)
      ensures descendants == nodes && Valid()
    {
      descendants := nodes;
    }
  }

  /** `querySelectorAll('[contenteditable]')`: the editable elements among `nodes`, each once
      when `nodes` has no repeats. */
  function QueryContentEditable(nodes: seq<Element>): (r: seq<Element>)
    ensures forall i :: 0 <= i < |r| ==> r[i] in nodes && r[i].contentEditable
    ensures forall i :: 0 <= i < |nodes| && nodes[i].contentEditable ==> nodes[i] in r
    ensures Distinct(nodes) ==> Distinct(r)
    decreases |nodes|
  {
    if |nodes| == 0 then []
    else (if nodes[0].contentEditable then [nodes[0]] else []) + QueryContentEditable(nodes[1..])
  }

  /** The class lists of `els`, in order. */
  function ClassLists(els: seq<Element>): (r: seq<set<string>>)
    reads set e | e in els
    ensures |r| == |els|
    ensures forall i :: 0 <= i < |els| ==> r[i] == els[i].classList
    decreases |els|
  {
    if |els| == 0 then [] else [els[0].classList] + ClassLists(els[1..])
  }

  /** A rasterized picture of the preview. Of what it shows, the model keeps how each element
      below the container was decorated at the moment it was taken. */
  datatype Canvas = Canvas(regions: seq<set<string>>)

  /** `html2canvas(input, ...)` followed by the page assembly and `pdf.save`: either rejects, or
      produces a picture of the preview as it is rendered at that moment. */
  method Html2Canvas(input: Preview) returns (r: Settled<Canvas>)
    ensures r.Resolved? ==> r.value.regions == ClassLists(input.descendants)
  {
    var ok: bool := *;
    if ok {
      r := Resolved(Canvas(ClassLists(input.descendants)));
    } else {
      r := Rejected;
    }
  }
}
