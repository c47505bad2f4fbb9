/** The HTML ballot printout of printer/HTMLPrinter.java. The file writer is
    an object holding the pieces written to it so far, each with its text;
    each helper appends its page(s) to it. Each list of image names is one
    column. */
module HtmlPrinting {
  import opened Wrappers
  import opened Sequences

  /** What one writer.write call emits: a fixed piece of markup, the tag
      loading one image, or the pair of line breaks after a selection. */
  datatype Piece =
    | HtmlOpen | HeadOpen | HeadClose | BodyOpen | Header | BodyClose | HtmlClose
    | Container | LeftMargin | RightMargin | LeftColumn | RightColumn | SingleColumn | DivClose
    | Img(path: string, name: string, width: string)
    | Break

  /** The text of each piece. */
  function Render(p: Piece): string {
    match p
    case HtmlOpen => "<html>\n"
    case HeadOpen => "<head>\n"
    case HeadClose => "</head>\n"
    case BodyOpen => "<body bgcolor = \"#FFFFFF\" text = \"#000000\">\n"
    case Header => "<h2>Rice University Demo Election</h2>\n"
    case BodyClose => "</body>\n"
    case HtmlClose => "</html>\n"
    case Container => "<div id = \"container\" style = \"background-color:#CCFF00;width:750px;height:792px;\">\n"
    case LeftMargin => "<div id = \"left_margin\" style = \"background-color:#000000;width:72px;float:left\"><br></div>\n"
    case RightMargin => "<div id = \"right_margin\" style = \"background-color:#000000;width:72px;float:right\"><br></div>\n"
    case LeftColumn => "<div id = \"left_column\" style=\"background-color:#ABCDEF;width:303px;float:left;\">\n"
    case RightColumn => "<div id = \"right_column\" style=\"background-color:#FEDCBA;width:303px;float:right;\">\n"
    case SingleColumn => "<div id = \"column\" style=\"background-color:#ABCDEF;width:606px;float:left;\">\n"
    case DivClose => "</div>\n"
    case Img(path, name, width) =>
      "<img src = \"" + path + name + "\" alt = \"Image did not load properly\" width = \"" + width + "\">\n"
    case Break => "<br>\n<br>\n"
  }

  /** A BufferedWriter: the pieces written to it, in order. */
  class HtmlWriter {
    var written: seq<Piece>

    constructor ()
      ensures written == []
    {
      written := [];
    }

    /** The text written so far. */
    function Text(): string
      reads this
    {
      Concat(written)
    }

    method Write(p: Piece)
      modifies this
      ensures written == old(written) + [p]
    {
      written := written + [p];
    }
  }

  /** The text of some pieces written one after the other. */
  function Concat(ps: seq<Piece>): string
    decreases |ps|
  {
    if |ps| == 0 then "" else Concat(ps[..|ps| - 1]) + Render(ps[|ps| - 1])
  }

  /** Writing two runs of pieces writes the two texts one after the other. */
  lemma {:induction false} ConcatAppend(a: seq<Piece>, b: seq<Piece>)
    ensures Concat(a + b) == Concat(a) + Concat(b)
    decreases |b|
  {
    if |b| > 0 {
      var b0 := b[..|b| - 1];
      assert (a + b)[..|a + b| - 1] == a + b0;
      ConcatAppend(a, b0);
    } else {
      assert a + b == a;
    }
  }

  /** The image widths of the left, right and single columns. */
  const LeftWidth := "250"
  const RightWidth := "303"
  const SingleWidth := "606"

  /** The images of one column: a break after every second image (the
      selection image that follows each title image). */
  function Column(path: string, names: seq<string>, width: string): seq<Piece>
    decreases |names|
  {
    if |names| == 0 then []
    else
      var n := |names| - 1;
      Column(path, names[..n], width) + ColumnStep(path, names[n], n, width)
  }

  /** The pieces for image n of a column. */
  function ColumnStep(path: string, name: string, n: int, width: string): seq<Piece> {
    [Img(path, name, width)] + (if n % 2 == 1 then [Break] else [])
  }

  /** A two-column page: list 0 on the left, list 1 (when there is one) on
      the right. A missing right list is caught, and the right column is
      still opened and closed. */
  function TwoColumnPage(path: string, lists: seq<seq<string>>): seq<Piece>
    requires |lists| >= 1
  {
    TwoFrame(Column(path, lists[0], LeftWidth), if |lists| >= 2 then Column(path, lists[1], RightWidth) else [])
  }

  /** The container, margins and left and right column divs around two columns. */
  function TwoFrame(left: seq<Piece>, right: seq<Piece>): seq<Piece> {
    [Container, LeftMargin, RightMargin, LeftColumn] + left + [DivClose, RightColumn] + right + [DivClose, DivClose]
  }

  /** The container, margins and column div around one column. */
  function OneFrame(column: seq<Piece>): seq<Piece> {
    [Container, LeftMargin, RightMargin, SingleColumn] + column + [DivClose, DivClose]
  }

  /** generatorHelperForTwoColumns: one page per two lists. */
  function TwoColumns(path: string, lists: seq<seq<string>>): seq<Piece>
    requires |lists| >= 1
    decreases |lists|
  {
    TwoColumnPage(path, lists) + (if |lists| > 2 then TwoColumns(path, lists[2..]) else [])
  }

  /** generatorHelperForOneColumn: list 0 alone, the rest two to a page. */
  function OneColumn(path: string, lists: seq<seq<string>>): seq<Piece>
    requires |lists| >= 1
  {
    OneFrame(Column(path, lists[0], SingleWidth)) + (if |lists| > 1 then TwoColumns(path, lists[1..]) else [])
  }

  const Prologue: seq<Piece> := [HtmlOpen, HeadOpen, HeadClose, BodyOpen, Header]
  const Epilogue: seq<Piece> := [BodyClose, HtmlClose]

  /** The four writes a helper makes before it reads imageNames[0]: the
      container, the margins and its first column div. */
  function FrameOpen(useTwoColumns: bool): seq<Piece> {
    [Container, LeftMargin, RightMargin, if useTwoColumns then LeftColumn else SingleColumn]
  }

  /** generateHTMLFile: with no list at all, the helper opens its frame and
      then imageNames[0] throws out of it and out of generateHTMLFile, whose
      catch takes only IOException. */
  function Document(useTwoColumns: bool, path: string, lists: seq<seq<string>>): seq<Piece>
  {
    if |lists| == 0 then Prologue + FrameOpen(useTwoColumns)
    else Prologue + Body(useTwoColumns, path, lists) + Epilogue
  }

  /** The helper output between the prologue and the epilogue. */
  function Body(useTwoColumns: bool, path: string, lists: seq<seq<string>>): seq<Piece>
    requires |lists| >= 1
  {
    if useTwoColumns then TwoColumns(path, lists) else OneColumn(path, lists)
  }

  // ------------------------------------------------------------ the writer

  method WriteColumn(writer: HtmlWriter, path: string, names: seq<string>, width: string)
    modifies writer
    ensures writer.written == old(writer.written) + Column(path, names, width)
  {
    var isSelectionImage := false;
    var i := 0;
    while i < |names|
      invariant 0 <= i <= |names|
      invariant isSelectionImage == (i % 2 == 1)
      invariant writer.written == old(writer.written) + Column(path, names[..i], width)
    {
      writer.Write(Img(path, names[i], width));
      if isSelectionImage {
        writer.Write(Break);
      }
      isSelectionImage := !isSelectionImage;
      assert names[..i + 1][..i] == names[..i];
      assert Column(path, names[..i + 1], width) == Column(path, names[..i], width) + ColumnStep(path, names[i], i, width);
      i := i + 1;
    }
    assert names[..i] == names;
  }

  /** The four opening writes of a frame: container, margins and the
      column div. */
  method WriteFrameOpen(writer: HtmlWriter, column: Piece)
    modifies writer
    ensures writer.written == old(writer.written) + [Container, LeftMargin, RightMargin, column]
  {
    ghost var w0 := writer.written;
    writer.Write(Container);
    writer.Write(LeftMargin);
    assert writer.written == w0 + [Container, LeftMargin];
    writer.Write(RightMargin);
    writer.Write(column);
    assert writer.written == w0 + [Container, LeftMargin] + [RightMargin, column];
    Assoc(w0, [Container, LeftMargin], [RightMargin, column]);
  }

  /** Two writes in a row. */
  method WritePair(writer: HtmlWriter, x: Piece, y: Piece)
    modifies writer
    ensures writer.written == old(writer.written) + [x, y]
  {
    writer.Write(x);
    writer.Write(y);
  }

  /** Writes one two-column page. */
  method WriteTwoColumnPage(writer: HtmlWriter, path: string, lists: seq<seq<string>>)
    requires |lists| >= 1
    modifies writer
    ensures writer.written == old(writer.written) + TwoColumnPage(path, lists)
  {
    ghost var w0 := writer.written;
    WriteFrameOpen(writer, LeftColumn);
    ghost var a: seq<Piece> := [Container, LeftMargin, RightMargin, LeftColumn];
    assert writer.written == w0 + a;
    ghost var l := Column(path, lists[0], LeftWidth);
    WriteColumn(writer, path, lists[0], LeftWidth);
    Assoc(w0, a, l);
    a := a + l;
    WritePair(writer, DivClose, RightColumn);
    Assoc(w0, a, [DivClose, RightColumn]);
    a := a + [DivClose, RightColumn];
    ghost var r := if |lists| >= 2 then Column(path, lists[1], RightWidth) else [];
    if |lists| >= 2 {
      WriteColumn(writer, path, lists[1], RightWidth);
    }
    assert writer.written == (w0 + a) + r;
    Assoc(w0, a, r);
    a := a + r;
    WritePair(writer, DivClose, DivClose);
    Assoc(w0, a, [DivClose, DivClose]);
    a := a + [DivClose, DivClose];
    assert a == TwoFrame(l, r);
  }

  method GeneratorHelperForTwoColumns(writer: HtmlWriter, path: string, lists: seq<seq<string>>)
    requires |lists| >= 1
    modifies writer
    ensures writer.written == old(writer.written) + TwoColumns(path, lists)
    decreases |lists|
  {
    ghost var w0 := writer.written;
    WriteTwoColumnPage(writer, path, lists);
    if |lists| > 2 {
      GeneratorHelperForTwoColumns(writer, path, lists[2..]);
      assert writer.written == w0 + (TwoColumnPage(path, lists) + TwoColumns(path, lists[2..]));
    }
  }

  method GeneratorHelperForOneColumn(writer: HtmlWriter, path: string, lists: seq<seq<string>>)
    requires |lists| >= 1
    modifies writer
    ensures writer.written == old(writer.written) + OneColumn(path, lists)
  {
    ghost var w0 := writer.written;
    WriteFrameOpen(writer, SingleColumn);
    ghost var a: seq<Piece> := [Container, LeftMargin, RightMargin, SingleColumn];
    assert writer.written == w0 + a;
    ghost var c := Column(path, lists[0], SingleWidth);
    WriteColumn(writer, path, lists[0], SingleWidth);
    Assoc(w0, a, c);
    a := a + c;
    WritePair(writer, DivClose, DivClose);
    Assoc(w0, a, [DivClose, DivClose]);
    a := a + [DivClose, DivClose];
    assert a == OneFrame(c);
    ghost var rest: seq<Piece> := if |lists| > 1 then TwoColumns(path, lists[1..]) else [];
    if |lists| > 1 {
      GeneratorHelperForTwoColumns(writer, path, lists[1..]);
    }
    assert writer.written == (w0 + a) + rest;
    Assoc(w0, a, rest);
  }

  /** generateHTMLFile on an open writer; Err when there is no list. */
  method GenerateHTMLFile(writer: HtmlWriter, useTwoColumns: bool, path: string, lists: seq<seq<string>>)
    returns (r: Result<()>)
    modifies writer
    ensures writer.written == old(writer.written) + Document(useTwoColumns, path, lists)
    ensures writer.Text() == old(writer.Text()) + Concat(Document(useTwoColumns, path, lists))
    ensures r.Ok? <==> |lists| > 0
  {
    writer.Write(HtmlOpen);
    writer.Write(HeadOpen);
    writer.Write(HeadClose);
    writer.Write(BodyOpen);
    writer.Write(Header);
    ghost var w1 := writer.written;
    assert w1 == old(writer.written) + Prologue;
    if |lists| == 0 {
      WriteFrameOpen(writer, if useTwoColumns then LeftColumn else SingleColumn);
      Assoc(old(writer.written), Prologue, FrameOpen(useTwoColumns));
      ConcatAppend(old(writer.written), Document(useTwoColumns, path, lists));
      return Err("ArrayIndexOutOfBoundsException");
    }
    if !useTwoColumns {
      GeneratorHelperForOneColumn(writer, path, lists);
    } else {
      GeneratorHelperForTwoColumns(writer, path, lists);
    }
    ghost var b := Body(useTwoColumns, path, lists);
    assert writer.written == (old(writer.written) + Prologue) + b;
    Assoc(old(writer.written), Prologue, b);
    writer.Write(BodyClose);
    writer.Write(HtmlClose);
    assert writer.written == (old(writer.written) + (Prologue + b)) + Epilogue;
    Assoc(old(writer.written), Prologue + b, Epilogue);
    ConcatAppend(old(writer.written), Document(useTwoColumns, path, lists));
    r := Ok(());
  }

  // ------------------------------------------------------------ properties

  /** The image tags of some output, in order. */
  function Images(ps: seq<Piece>): (r: seq<Piece>)
    ensures |r| <= |ps|
    decreases |ps|
  {
    if |ps| == 0 then []
    else Images(ps[..|ps| - 1]) + (if ps[|ps| - 1].Img? then [ps[|ps| - 1]] else [])
  }

  /** The number of breaks in some output. */
  function Breaks(ps: seq<Piece>): nat
    decreases |ps|
  {
    if |ps| == 0 then 0
    else Breaks(ps[..|ps| - 1]) + (if ps[|ps| - 1] == Break then 1 else 0)
  }

  lemma {:induction false} ImagesAppend(a: seq<Piece>, b: seq<Piece>)
    ensures Images(a + b) == Images(a) + Images(b)
    ensures Breaks(a + b) == Breaks(a) + Breaks(b)
    decreases |b|
  {
    if |b| == 0 {
      assert a + b == a;
    } else {
      var b' := b[..|b| - 1];
      assert (a + b)[..|a + b| - 1] == a + b';
      ImagesAppend(a, b');
    }
  }

  /** Fixed markup holds no image tag and no break. */
  lemma {:induction false} Fixed(ps: seq<Piece>)
    requires forall i :: 0 <= i < |ps| ==> !ps[i].Img? && ps[i] != Break
    ensures Images(ps) == [] && Breaks(ps) == 0
    decreases |ps|
  {
    if |ps| > 0 {
      Fixed(ps[..|ps| - 1]);
    }
  }

  /** One image tag per name, in order, and a break after every second. */
  lemma {:induction false} ColumnImages(path: string, names: seq<string>, width: string)
    ensures Images(Column(path, names, width)) == ColumnImgs(path, names, width)
    ensures Breaks(Column(path, names, width)) == |names| / 2
    decreases |names|
  {
    if |names| > 0 {
      var n := |names| - 1;
      ColumnImages(path, names[..n], width);
      var tail := ColumnStep(path, names[n], n, width);
      assert Column(path, names, width) == Column(path, names[..n], width) + tail;
      ImagesAppend(Column(path, names[..n], width), tail);
      StepImages(path, names[n], n, width);
      ColumnImgsSnoc(path, names, width);
      assert (n + 1) / 2 == n / 2 + n % 2;
    }
  }

  /** One step of a column: its image tag, and a break after an odd position. */
  lemma StepImages(path: string, name: string, n: int, width: string)
    ensures Images(ColumnStep(path, name, n, width)) == [Img(path, name, width)]
    ensures Breaks(ColumnStep(path, name, n, width)) == if n % 2 == 1 then 1 else 0
  {
    ImagesAppend([Img(path, name, width)], if n % 2 == 1 then [Break] else []);
    assert [Img(path, name, width)][..0] == [];
  }

  lemma ColumnImgsSnoc(path: string, names: seq<string>, width: string)
    requires |names| > 0
    ensures ColumnImgs(path, names, width) ==
      ColumnImgs(path, names[..|names| - 1], width) + [Img(path, names[|names| - 1], width)]
  {
  }

  function Flat(xss: seq<seq<Piece>>): seq<Piece>
    decreases |xss|
  {
    if |xss| == 0 then [] else xss[0] + Flat(xss[1..])
  }

  function ColumnImgs(path: string, names: seq<string>, width: string): seq<Piece> {
    seq(|names|, j requires 0 <= j < |names| => Img(path, names[j], width))
  }

  /** In two-column pages, even lists go left and odd lists go right. */
  function TwoImgs(path: string, lists: seq<seq<string>>): seq<seq<Piece>> {
    seq(|lists|, i requires 0 <= i < |lists| => ColumnImgs(path, lists[i], if i % 2 == 0 then LeftWidth else RightWidth))
  }

  lemma TwoFrameImages(left: seq<Piece>, right: seq<Piece>)
    ensures Images(TwoFrame(left, right)) == Images(left) + Images(right)
  {
    FrameMarkup();
    InterleavedImages([Container, LeftMargin, RightMargin, LeftColumn], left, [DivClose, RightColumn], right, [DivClose, DivClose]);
  }

  /** The markup of the frames holds no image tag. */
  lemma FrameMarkup()
    ensures Images([Container, LeftMargin, RightMargin, LeftColumn]) == []
    ensures Images([Container, LeftMargin, RightMargin, SingleColumn]) == []
    ensures Images([DivClose, RightColumn]) == [] && Images([DivClose, DivClose]) == []
  {
    Fixed([Container, LeftMargin, RightMargin, LeftColumn]);
    Fixed([Container, LeftMargin, RightMargin, SingleColumn]);
    Fixed([DivClose, RightColumn]);
    Fixed([DivClose, DivClose]);
  }

  /** Two parts between three pieces of fixed markup keep their images. */
  lemma InterleavedImages(p1: seq<Piece>, left: seq<Piece>, p2: seq<Piece>, right: seq<Piece>, p3: seq<Piece>)
    requires Images(p1) == [] && Images(p2) == [] && Images(p3) == []
    ensures Images(p1 + left + p2 + right + p3) == Images(left) + Images(right)
  {
    var a := p1 + left;
    ImagesAppend(p1, left);
    var b := a + p2;
    ImagesAppend(a, p2);
    assert Images(b) == Images(left);
    var c := b + right;
    ImagesAppend(b, right);
    ImagesAppend(c, p3);
  }

  lemma OneFrameImages(column: seq<Piece>)
    ensures Images(OneFrame(column)) == Images(column)
  {
    FrameMarkup();
    SurroundedImages([Container, LeftMargin, RightMargin, SingleColumn], column, [DivClose, DivClose]);
  }

  /** A part between two pieces of fixed markup keeps its images. */
  lemma SurroundedImages(pre: seq<Piece>, body: seq<Piece>, post: seq<Piece>)
    requires Images(pre) == [] && Images(post) == []
    ensures Images(pre + body + post) == Images(body)
  {
    ImagesAppend(pre, body);
    ImagesAppend(pre + body, post);
  }

  lemma PageImages(path: string, lists: seq<seq<string>>)
    requires |lists| >= 1
    ensures Images(TwoColumnPage(path, lists)) ==
      ColumnImgs(path, lists[0], LeftWidth) + (if |lists| >= 2 then ColumnImgs(path, lists[1], RightWidth) else [])
  {
    var l := Column(path, lists[0], LeftWidth);
    var r := if |lists| >= 2 then Column(path, lists[1], RightWidth) else [];
    ColumnImages(path, lists[0], LeftWidth);
    if |lists| >= 2 {
      ColumnImages(path, lists[1], RightWidth);
    }
    TwoFrameImages(l, r);
  }

  /** The first two lists go left and right, and the rest start over. */
  lemma TwoImgsFront(path: string, lists: seq<seq<string>>)
    requires |lists| >= 1
    ensures TwoImgs(path, lists)[0] == ColumnImgs(path, lists[0], LeftWidth)
    ensures |lists| >= 2 ==> TwoImgs(path, lists)[1] == ColumnImgs(path, lists[1], RightWidth)
    ensures |lists| >= 2 ==> TwoImgs(path, lists)[2..] == TwoImgs(path, lists[2..])
  {
    if |lists| >= 2 {
      var t := TwoImgs(path, lists);
      var u := TwoImgs(path, lists[2..]);
      forall i | 0 <= i < |u|
        ensures t[2..][i] == u[i]
      {
        assert (i + 2) % 2 == i % 2;
      }
    }
  }

  /** Every name of every list gives exactly one image tag, in list order,
      across the whole recursion; list i is drawn at the left width when i
      is even and at the right width when i is odd. */
  lemma {:induction false} TwoColumnsImages(path: string, lists: seq<seq<string>>)
    requires |lists| >= 1
    ensures Images(TwoColumns(path, lists)) == Flat(TwoImgs(path, lists))
    decreases |lists|
  {
    PageImages(path, lists);
    var t := TwoImgs(path, lists);
    TwoImgsFront(path, lists);
    if |lists| >= 2 {
      FlatTwo(t);
      if |lists| > 2 {
        TwoColumnsImages(path, lists[2..]);
        ImagesAppend(TwoColumnPage(path, lists), TwoColumns(path, lists[2..]));
      } else {
        assert t[2..] == [];
        assert TwoColumns(path, lists) == TwoColumnPage(path, lists);
      }
    } else {
      assert t[1..] == [];
      assert TwoColumns(path, lists) == TwoColumnPage(path, lists);
    }
  }

  lemma FlatTwo(t: seq<seq<Piece>>)
    requires |t| >= 2
    ensures Flat(t) == t[0] + t[1] + Flat(t[2..])
  {
    assert t[1..][1..] == t[2..];
  }

  /** The whole document: in one-column mode list 0 is drawn at the single
      width and lists 1.. are laid out two to a page. */
  lemma DocumentImages(useTwoColumns: bool, path: string, lists: seq<seq<string>>)
    requires |lists| >= 1
    ensures Images(Document(useTwoColumns, path, lists)) ==
      if useTwoColumns then Flat(TwoImgs(path, lists))
      else ColumnImgs(path, lists[0], SingleWidth) + Flat(TwoImgs(path, lists[1..]))
  {
    WrapImages(Body(useTwoColumns, path, lists));
    if useTwoColumns {
      TwoColumnsImages(path, lists);
    } else {
      OneColumnImages(path, lists);
    }
  }

  lemma WrapImages(body: seq<Piece>)
    ensures Images(Prologue + body + Epilogue) == Images(body)
  {
    Fixed(Prologue);
    Fixed(Epilogue);
    SurroundedImages(Prologue, body, Epilogue);
  }

  lemma OneColumnImages(path: string, lists: seq<seq<string>>)
    requires |lists| >= 1
    ensures Images(OneColumn(path, lists)) == ColumnImgs(path, lists[0], SingleWidth) + Flat(TwoImgs(path, lists[1..]))
  {
    var c := Column(path, lists[0], SingleWidth);
    var rest := if |lists| > 1 then TwoColumns(path, lists[1..]) else [];
    ColumnImages(path, lists[0], SingleWidth);
    OneFrameImages(c);
    ImagesAppend(OneFrame(c), rest);
    if |lists| > 1 {
      TwoColumnsImages(path, lists[1..]);
    } else {
      assert TwoImgs(path, lists[1..]) == [];
    }
  }

  /** With an odd number of lists the last page's right column is opened and
      closed empty. */
  lemma EmptyRightColumn(path: string, lists: seq<seq<string>>)
    requires |lists| >= 1 && |lists| % 2 == 1
    ensures var out := TwoColumns(path, lists);
      |out| >= 3 && out[|out| - 3..] == [RightColumn, DivClose, DivClose]
    decreases |lists|
  {
    if |lists| > 2 {
      EmptyRightColumn(path, lists[2..]);
      var p := TwoColumnPage(path, lists);
      var q := TwoColumns(path, lists[2..]);
      assert (p + q)[|p + q| - 3..] == q[|q| - 3..];
    } else {
      var p := TwoColumnPage(path, lists);
      assert p[|p| - 3..] == [RightColumn, DivClose, DivClose];
    }
  }

  /** The document opens with the prologue, and closes with the epilogue
      exactly when there is a list; without one it stops inside an opened
      frame, before any image. */
  lemma DocumentFrame(useTwoColumns: bool, path: string, lists: seq<seq<string>>)
    ensures var d := Document(useTwoColumns, path, lists);
      |d| >= |Prologue| && d[..|Prologue|] == Prologue &&
      (|lists| > 0 <==> (|d| >= |Prologue| + |Epilogue| && d[|d| - |Epilogue|..] == Epilogue))
    ensures |lists| == 0 ==>
      Images(Document(useTwoColumns, path, lists)) == [] && Document(useTwoColumns, path, lists)[|Prologue|] == Container
  {
    var d := Document(useTwoColumns, path, lists);
    if |lists| > 0 {
      var mid := if useTwoColumns then TwoColumns(path, lists) else OneColumn(path, lists);
      assert d == Prologue + mid + Epilogue;
      assert d[|d| - |Epilogue|..] == Epilogue;
      assert d[..|Prologue|] == Prologue;
    } else {
      assert d == Prologue + FrameOpen(useTwoColumns);
      Fixed(d);
    }
  }
}
