/**
 * The element lines of the worked example written out as text: the writer's line
 * `1 5 2 0 0 1 2 3 4 5 6 7 8` and the corrector's line `1 5 2 0 0 3 5 8 6 1 2 7 4`.
 */
module ExampleLines {
  import opened Results
  import opened Text
  import opened MeshWriter
  import opened NodeOrder
  import opened Example

  /** A list of single digits is written as a space before each digit. */
  lemma {:induction false} TrailOfDigits(ids: seq<int>)
    requires forall i :: 0 <= i < |ids| ==> 0 <= ids[i] < 10
    ensures |Trail(ids)| == 2 * |ids|
    ensures forall i :: 0 <= i < |ids| ==> Trail(ids)[2 * i] == ' ' && Trail(ids)[2 * i + 1] == (('0' as int) + ids[i]) as char
    decreases |ids|
  {
    if ids != [] {
      ShowDigit(ids[0]);
      TrailOfDigits(ids[1..]);
      var t := Trail(ids[1..]);
      assert Trail(ids) == [' ', (('0' as int) + ids[0]) as char] + t;
      forall i | 0 < i < |ids|
        ensures Trail(ids)[2 * i] == ' ' && Trail(ids)[2 * i + 1] == (('0' as int) + ids[i]) as char
      {
        assert Trail(ids)[2 * i] == t[2 * (i - 1)];
        assert Trail(ids)[2 * i + 1] == t[2 * (i - 1) + 1];
        assert ids[i] == ids[1..][i - 1];
      }
    }
  }

  /** The head of an element line of type 5 with id 1. */
  lemma BrickHead(ids: seq<int>)
    ensures ElementLine(1, 5, ids) == "1 5 2 0 0" + Trail(ids)
  {
    ShowDigit(1);
    ShowDigit(5);
    assert Spaced(ShowInt(1), Spaced(ShowInt(5), "2 0 0")) == "1 5 2 0 0";
  }

  /** The nodes of the brick as the writer prints them. */
  lemma GridPointsTrail()
    ensures Trail(GridPoints) == " 1 2 3 4 5 6 7 8"
  {
    TrailOfDigits(GridPoints);
  }

  /** The nodes of the brick in Gmsh order as the corrector prints them. */
  lemma GmshOrderTrail()
    ensures Trail(GmshOrder) == " 3 5 8 6 1 2 7 4"
  {
    TrailOfDigits(GmshOrder);
  }

  /** The writer's line of the brick. */
  lemma GridPointsLine()
    ensures ElementLine(1, 5, GridPoints) == "1 5 2 0 0 1 2 3 4 5 6 7 8"
  {
    BrickHead(GridPoints);
    GridPointsTrail();
  }

  /** The corrector's line of the brick. */
  lemma GmshOrderLine()
    ensures ElementLine(1, 5, GmshOrder) == "1 5 2 0 0 3 5 8 6 1 2 7 4"
  {
    BrickHead(GmshOrder);
    GmshOrderTrail();
  }

  /** The corrector rewrites the writer's line of the brick into its Gmsh line, as text. */
  lemma BrickRewrittenText(at: nat)
    ensures RewriteLine("1 5 2 0 0 1 2 3 4 5 6 7 8", at) == Ok("1 5 2 0 0 3 5 8 6 1 2 7 4")
  {
    BrickGather(GridPoints);
    LineRewrittenAs(1, 5, GridPoints, GmshOrder, at);
    GridPointsLine();
    GmshOrderLine();
  }
}
