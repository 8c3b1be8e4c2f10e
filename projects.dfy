/** The Projects section: an endlessly running carousel of project cards.
    The six projects are laid out ten times over; every animation frame moves
    the track 4 px to the left unless the pointer is over it; clicking a card
    selects its project and opens the modal, and closing the modal only
    clears the open flag.

    Only the titles of the projects matter here; the rest of each record
    is static content. */
module Projects {
  import opened Util

  datatype Project = Project(title: string)

  const ProjectList: seq<Project> := [
    Project("DUUET"),
    Project("Party & Entertainment App"),
    Project("Grahan Eclipse App"),
    Project("ANTRIKSH Space App"),
    Project("University Homepage"),
    Project("Social Media Campaigns")
  ]

  const Copies: nat := 10
  const StepPx: int := 4

  /** `Array(k).fill(ps).flat()`. */
  function Repeat<T>(ps: seq<T>, k: nat): (r: seq<T>)
    decreases k
  {
    if k == 0 then [] else Repeat(ps, k - 1) + ps
  }

  lemma {:induction false} RepeatIndex<T>(ps: seq<T>, k: nat)
    requires |ps| > 0
    ensures |Repeat(ps, k)| == k * |ps|
    ensures forall i :: 0 <= i < |Repeat(ps, k)| ==> Repeat(ps, k)[i] == ps[i % |ps|]
    decreases k
  {
    if k > 0 {
      RepeatIndex(ps, k - 1);
      var prev := Repeat(ps, k - 1);
      var n := |ps|;
      assert |prev| == (k - 1) * n;
      forall i | 0 <= i < |Repeat(ps, k)| ensures Repeat(ps, k)[i] == ps[i % n] {
        if i >= |prev| {
          var j := i - |prev|;
          assert 0 <= j < n;
          assert i == (k - 1) * n + j;
          DivModUnique(i, n, k - 1, j);
        }
      }
    }
  }

  /** `infiniteProjects`: 60 cards, card i showing project i mod 6. */
  function InfiniteProjects(): (r: seq<Project>)
    ensures |r| == Copies * |ProjectList| && |ProjectList| == 6
    ensures forall i :: 0 <= i < |r| ==> r[i] == ProjectList[i % |ProjectList|]
  {
    RepeatIndex(ProjectList, Copies);
    Repeat(ProjectList, Copies)
  }

  /** The label of a card's button: one of three, each chosen by exactly
      the titles that select it. */
  function ButtonLabel(title: string): (l: string)
    ensures l == "View Creative Work" <==> title == "Social Media Campaigns"
    ensures l == "View Design Process" <==> title == "DUUET"
    ensures l == "View Case Study" <==> title != "Social Media Campaigns" && title != "DUUET"
  {
    if title == "Social Media Campaigns" then "View Creative Work"
    else if title == "DUUET" then "View Design Process"
    else "View Case Study"
  }

  /** Of the six projects, the first reads "View Design Process", the last
      "View Creative Work" and the four others "View Case Study". */
  lemma LabelsOfProjects()
    ensures ButtonLabel(ProjectList[0].title) == "View Design Process"
    ensures ButtonLabel(ProjectList[5].title) == "View Creative Work"
    ensures forall i :: 1 <= i <= 4 ==> ButtonLabel(ProjectList[i].title) == "View Case Study"
  {
    assert ProjectList[5].title == "Social Media Campaigns";
    forall i | 1 <= i <= 4 ensures ButtonLabel(ProjectList[i].title) == "View Case Study" {
      var t := ProjectList[i].title;
      assert t[0] != 'S' && t[0] != 'D';
      assert t != "Social Media Campaigns" && t != "DUUET";
    }
  }

  // ----- card keys -----

  function DigitChar(d: nat): (c: char)
    requires d < 10
    ensures '0' <= c <= '9' && (c as int) - ('0' as int) == d
  {
    ('0' as int + d) as char
  }

  /** `${n}` for a non-negative integer. */
  function Decimal(n: nat): (s: string)
    ensures |s| >= 1 && forall i :: 0 <= i < |s| ==> '0' <= s[i] <= '9'
    decreases n
  {
    if n < 10 then [DigitChar(n)] else Decimal(n / 10) + [DigitChar(n % 10)]
  }

  /** Reads a string of decimal digits back. */
  function ParseDecimal(s: string): nat
    decreases |s|
  {
    if s == [] then 0
    else
      var d := (s[|s| - 1] as int) - ('0' as int);
      ParseDecimal(s[..|s| - 1]) * 10 + (if 0 <= d then d else 0)
  }

  lemma {:induction false} DecimalRoundTrip(n: nat)
    ensures ParseDecimal(Decimal(n)) == n
    decreases n
  {
    if n >= 10 {
      DecimalRoundTrip(n / 10);
      var s := Decimal(n);
      assert s[..|s| - 1] == Decimal(n / 10);
    }
  }

  /** The React key of card `index`. */
  function CardKey(title: string, index: nat): (k: string)
    ensures k == title + "-" + Decimal(index)
  {
    title + "-" + Decimal(index)
  }

  /** Where the dash and the tail sit in `a + "-" + d`. */
  lemma DashThenTail(a: string, d: string)
    ensures (a + "-" + d)[|a|] == '-'
    ensures forall i :: 0 <= i < |d| ==> (a + "-" + d)[|a| + 1 + i] == d[i]
  {
  }

  /** Two strings that end in a dash followed by dash-free tails of the same
      string have the same tail. */
  lemma SameTail(a: string, b: string, d1: string, d2: string)
    requires a + "-" + d1 == b + "-" + d2
    requires forall i :: 0 <= i < |d1| ==> d1[i] != '-'
    requires forall i :: 0 <= i < |d2| ==> d2[i] != '-'
    ensures d1 == d2
  {
    DashThenTail(a, d1);
    DashThenTail(b, d2);
    if |d1| != |d2| {
      assert false;
    }
    var k := a + "-" + d1;
    assert d1 == k[|k| - |d1|..] == d2;
  }

  /** Cards at different indices get different keys, whatever the titles. */
  lemma CardKeysDistinct(t1: string, i: nat, t2: string, j: nat)
    requires i != j
    ensures CardKey(t1, i) != CardKey(t2, j)
  {
    if CardKey(t1, i) == CardKey(t2, j) {
      SameTail(t1, t2, Decimal(i), Decimal(j));
      DecimalRoundTrip(i);
      DecimalRoundTrip(j);
    }
  }

  // ----- carousel state -----

  /** `scrollX`, `isHovered`, `selectedProject`, `isModalOpen`. */
  datatype State = State(scrollX: int, isHovered: bool, selectedProject: Option<Project>, isModalOpen: bool)

  const Initial: State := State(0, false, None, false)

  /** scrollX is a non-positive multiple of 4. */
  ghost predicate Inv(s: State)
  {
    s.scrollX <= 0 && s.scrollX % StepPx == 0
  }

  /** One animation frame. */
  function Frame(s: State): (t: State)
    ensures !s.isHovered ==> t.scrollX == s.scrollX - StepPx
    ensures s.isHovered ==> t.scrollX == s.scrollX
    ensures t.isHovered == s.isHovered && t.selectedProject == s.selectedProject && t.isModalOpen == s.isModalOpen
    ensures Inv(s) ==> Inv(t)
  {
    if s.isHovered then s else s.(scrollX := s.scrollX - StepPx)
  }

  function Frames(s: State, n: nat): State
    decreases n
  {
    if n == 0 then s else Frames(Frame(s), n - 1)
  }

  /** n frames without hovering move the track exactly 4n px to the left;
      while hovered it does not move at all. */
  lemma {:induction false} FramesMove(s: State, n: nat)
    ensures Frames(s, n).scrollX == (if s.isHovered then s.scrollX else s.scrollX - StepPx * n)
    ensures Frames(s, n).isHovered == s.isHovered
    decreases n
  {
    if n > 0 {
      FramesMove(Frame(s), n - 1);
    }
  }

  function MouseEnter(s: State): (t: State)
    ensures t.isHovered && t == s.(isHovered := true)
  {
    s.(isHovered := true)
  }

  function MouseLeave(s: State): (t: State)
    ensures !t.isHovered && t == s.(isHovered := false)
  {
    s.(isHovered := false)
  }

  /** `handleProjectClick`. */
  function Click(s: State, p: Project): (t: State)
    ensures t.selectedProject == Some(p) && t.isModalOpen
    ensures t.scrollX == s.scrollX && t.isHovered == s.isHovered
  {
    s.(selectedProject := Some(p), isModalOpen := true)
  }

  /** The modal's `onClose`: the selection is kept. */
  function Close(s: State): (t: State)
    ensures !t.isModalOpen && t.selectedProject == s.selectedProject
    ensures t.scrollX == s.scrollX && t.isHovered == s.isHovered
  {
    s.(isModalOpen := false)
  }

  /** Clicking card i selects project i mod 6; closing afterwards keeps it. */
  lemma ClickCard(s: State, i: nat)
    requires i < Copies * |ProjectList|
    ensures var t := Click(s, InfiniteProjects()[i]);
      t.selectedProject == Some(ProjectList[i % 6]) && t.isModalOpen &&
      Close(t).selectedProject == Some(ProjectList[i % 6]) && !Close(t).isModalOpen
  {
  }

  /** The modal is mounted once a project has been selected, open or not. */
  datatype Modal = Modal(project: Project, isOpen: bool)

  function ModalView(s: State): (m: Option<Modal>)
    ensures s.selectedProject.None? <==> m.None?
    ensures m.Some? ==> m.value.project == s.selectedProject.value && m.value.isOpen == s.isModalOpen
  {
    match s.selectedProject
    case None => None
    case Some(p) => Some(Modal(p, s.isModalOpen))
  }

  /** The mounted section. */
  class Carousel {
    var scrollX: int
    var isHovered: bool
    var selectedProject: Option<Project>
    var isModalOpen: bool

    function Snapshot(): State
      reads this
    {
      State(scrollX, isHovered, selectedProject, isModalOpen)
    }

    ghost predicate Valid()
      reads this
    {
      Inv(Snapshot())
    }

    constructor ()
      ensures Snapshot() == Initial && Valid()
    {
      scrollX, isHovered, selectedProject, isModalOpen := 0, false, None, false;
    }

    method OnAnimationFrame()
      requires Valid()
      modifies this
      ensures Valid() && Snapshot() == Frame(old(Snapshot()))
    {
      if !isHovered {
        scrollX := scrollX - StepPx;
      }
    }

    method OnMouseEnter()
      requires Valid()
      modifies this
      ensures Valid() && Snapshot() == MouseEnter(old(Snapshot()))
    {
      isHovered := true;
    }

    method OnMouseLeave()
      requires Valid()
      modifies this
      ensures Valid() && Snapshot() == MouseLeave(old(Snapshot()))
    {
      isHovered := false;
    }

    method HandleProjectClick(p: Project)
      requires Valid()
      modifies this
      ensures Valid() && Snapshot() == Click(old(Snapshot()), p)
    {
      selectedProject := Some(p);
      isModalOpen := true;
    }

    method OnModalClose()
      requires Valid()
      modifies this
      ensures Valid() && Snapshot() == Close(old(Snapshot()))
    {
      isModalOpen := false;
    }
  }
}
