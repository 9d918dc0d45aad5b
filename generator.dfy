/**
  The template page generator (`generate_html` in generator.py): a fixed page
  header, one Bootstrap row per detection of a known class, in input order,
  and a fixed footer.
*/
module Generator {
  import Detector

  const Header :=
    "\n    <html lang=\"en\">\n    <head>\n        <meta charset=\"UTF-8\">\n"
    + "        <meta name=\"viewport\" content=\"width=device-width, initial-scale=1.0\">\n"
    + "        <title>Generated Page</title>\n"
    + "        <link href=\"https://cdn.jsdelivr.net/npm/bootstrap@5.3.3/dist/css/bootstrap.min.css\" rel=\"stylesheet\">\n"
    + "    </head>\n    <body>\n        <div class=\"container py-5\">\n    "

  const Footer := "\n        </div>\n    </body>\n    </html>\n    "

  const ParagraphRow :=
    "<div class=\"row mb-3\"><div class=\"col-md-8 mx-auto\"><p class=\"lead\">Sample paragraph text.</p></div></div>\n"
  const ImageRow :=
    "<div class=\"row mb-3\"><div class=\"col-md-8 mx-auto\"><img src=\"https://placehold.co/600x400\" class=\"img-fluid rounded\"></div></div>\n"
  const TextInputRow :=
    "<div class=\"row mb-3\"><div class=\"col-md-8 mx-auto\"><input type=\"text\" class=\"form-control\" placeholder=\"Enter data here...\"></div></div>\n"
  const ButtonRow :=
    "<div class=\"row mb-3\"><div class=\"col-md-8 mx-auto text-center\"><button type=\"submit\" class=\"btn btn-primary\">Submit</button></div></div>\n"

  /** The classes the generator knows a row for. */
  predicate IsKnownClass(className: string) {
    className in {"paragraph", "image", "text-input", "button"}
  }

  /** The markup the loop appends for one detection; empty when its class has no row. */
  function Fragment(className: string): (f: string)
    ensures f != [] <==> IsKnownClass(className)
  {
    if className == "paragraph" then ParagraphRow
    else if className == "image" then ImageRow
    else if className == "text-input" then TextInputRow
    else if className == "button" then ButtonRow
    else ""
  }

  /** The markup of all detections, each rendered by `render`, in input order. */
  function Rows(detections: seq<Detector.Record>, render: string -> string): string {
    if detections == [] then ""
    else Rows(detections[..|detections| - 1], render) + render(detections[|detections| - 1].className)
  }

  /** The rows of all detections, in input order; there are none exactly when no detection has a known class. */
  function Body(detections: seq<Detector.Record>): (b: string)
    ensures b == [] <==> forall i :: 0 <= i < |detections| ==> !IsKnownClass(detections[i].className)
  {
    RowsEmpty(detections, Fragment);
    Rows(detections, Fragment)
  }

  /** The class names of the detections, in order. */
  function ClassNames(detections: seq<Detector.Record>): (names: seq<string>)
    ensures |names| == |detections|
    ensures forall i :: 0 <= i < |detections| ==> names[i] == detections[i].className
  {
    if detections == [] then []
    else ClassNames(detections[..|detections| - 1]) + [detections[|detections| - 1].className]
  }

  /** The detections whose class has a row, in order. */
  function KnownOnly(detections: seq<Detector.Record>): (r: seq<Detector.Record>)
    ensures forall d :: d in r <==> d in detections && IsKnownClass(d.className)
  {
    if detections == [] then []
    else KnownOnly(detections[..|detections| - 1])
         + (if IsKnownClass(detections[|detections| - 1].className) then [detections[|detections| - 1]] else [])
  }

  /** The rows are empty exactly when every detection renders to nothing. */
  lemma {:induction false} RowsEmpty(detections: seq<Detector.Record>, render: string -> string)
    ensures Rows(detections, render) == []
        <==> forall i :: 0 <= i < |detections| ==> render(detections[i].className) == []
    decreases |detections|
  {
    if detections != [] {
      var init := detections[..|detections| - 1];
      RowsEmpty(init, render);
      assert forall i :: 0 <= i < |init| ==> init[i] == detections[i];
    }
  }

  /** One more detection appends its rendering. */
  lemma RowsStep(detections: seq<Detector.Record>, render: string -> string, i: nat)
    requires i < |detections|
    ensures Rows(detections[..i + 1], render) == Rows(detections[..i], render) + render(detections[i].className)
  {
    assert detections[..i + 1][..i] == detections[..i];
  }

  /**
    The loop of `generate_html`: appends the rendering of each detection, in
    order, to `start`. The renderer is a parameter so that the proof does not
    depend on the row markup.
  */
  method AppendRows(start: string, detections: seq<Detector.Record>, render: string -> string)
    returns (html: string)
    ensures html == start + Rows(detections, render)
  {
    html := start;
    var i := 0;
    while i < |detections|
      invariant 0 <= i <= |detections|
      invariant html == start + Rows(detections[..i], render)
    {
      var row := render(detections[i].className);
      RowsStep(detections, render, i);
      html := html + row;
      i := i + 1;
    }
    assert detections[..i] == detections;
  }

  /** `generate_html(detections)`: header, the rows appended in a loop, footer. */
  method GenerateHtml(detections: seq<Detector.Record>) returns (html: string)
    ensures html == Header + Body(detections) + Footer
    ensures detections == [] ==> html == Header + Footer
  {
    html := AppendRows(Header, detections, Fragment);
    html := html + Footer;
  }

  /** The page opens with the whole header and closes with the whole footer. */
  lemma PageFrame(detections: seq<Detector.Record>)
    ensures var page := Header + Body(detections) + Footer;
            page[..|Header|] == Header && page[|page| - |Footer|..] == Footer
  {
  }

  /** The rows of two lists one after the other are the rows of the joined list: rows follow input order. */
  lemma {:induction false} BodyAppend(a: seq<Detector.Record>, b: seq<Detector.Record>)
    ensures Body(a + b) == Body(a) + Body(b)
    decreases |b|
  {
    if b == [] {
      assert a + b == a;
    } else {
      var b' := b[..|b| - 1];
      assert (a + b)[..|a + b| - 1] == a + b';
      BodyAppend(a, b');
    }
  }

  /** One detection contributes exactly the row of its class, or nothing when the class is unknown. */
  lemma BodySingle(d: Detector.Record)
    ensures Body([d]) == Fragment(d.className)
    ensures !IsKnownClass(d.className) ==> Body([d]) == ""
  {
    assert [d][..0] == [];
    assert Rows([d], Fragment) == Rows([], Fragment) + Fragment(d.className);
  }

  /** Only the class is read: detections with the same class names give the same rows. */
  lemma {:induction false} BodyReadsOnlyClass(a: seq<Detector.Record>, b: seq<Detector.Record>)
    requires ClassNames(a) == ClassNames(b)
    ensures Body(a) == Body(b)
    decreases |a|
  {
    if a != [] {
      var a', b' := a[..|a| - 1], b[..|b| - 1];
      assert ClassNames(a') == ClassNames(a)[..|a'|];
      assert ClassNames(b') == ClassNames(b)[..|b'|];
      BodyReadsOnlyClass(a', b');
    }
  }

  /** Detections of unknown classes contribute nothing: the rows are those of the known ones. */
  lemma {:induction false} BodySkipsUnknown(detections: seq<Detector.Record>)
    ensures Body(detections) == Body(KnownOnly(detections))
    decreases |detections|
  {
    if detections != [] {
      var init, last := detections[..|detections| - 1], detections[|detections| - 1];
      BodySkipsUnknown(init);
      if IsKnownClass(last.className) {
        BodyAppend(KnownOnly(init), [last]);
        BodySingle(last);
      } else {
        assert KnownOnly(detections) == KnownOnly(init);
      }
    }
  }
}
