/**
 The tabbed timeline panel: four category buttons, the active category (held
 by the page as its string key), the content bundle shown for it, the image
 chosen for it and the highlighting of the buttons.
 */
module Timeline {

  datatype Option<T> = None | Some(value: T)

  datatype Category = Anthropometric | Performance | Science | Drills

  /** A content bundle: a title and the ordered list of tests. */
  datatype Content = Content(title: string, tests: seq<string>)

  /** The active category when the page mounts. */
  const Initial: Category := Anthropometric

  /** On mount the first button is highlighted and the first image is shown. */
  lemma InitialSelection()
    ensures Key(Initial) == "anthropometric"
    ensures Highlighted(Initial, Buttons[0])
    ensures ImageIndex(Key(Initial)) == 1
  {
  }

  /** The buttons, in the order the panel renders them. */
  const Buttons: seq<Category> := [Anthropometric, Performance, Science, Drills]

  /** The string key the page stores and compares; reading it back gives the category. */
  function Key(c: Category): (s: string)
    ensures FromKey(s) == Some(c)
  {
    match c
    case Anthropometric => "anthropometric"
    case Performance => "performance"
    case Science => "science"
    case Drills => "drills"
  }

  /** The category a key stands for, if any: exactly the four keys of the content table have one. */
  function FromKey(s: string): (r: Option<Category>)
    ensures r.Some? <==> s in {"anthropometric", "performance", "science", "drills"}
  {
    if s == "anthropometric" then Some(Anthropometric)
    else if s == "performance" then Some(Performance)
    else if s == "science" then Some(Science)
    else if s == "drills" then Some(Drills)
    else None
  }

  /** Keys and categories correspond one to one. */
  lemma KeyRoundTrip(c: Category, s: string)
    ensures FromKey(Key(c)) == Some(c)
    ensures FromKey(s) == Some(c) <==> Key(c) == s
  {
  }

  /** Each button appears once, so the panel offers every category exactly once. */
  lemma ButtonsEnumerateCategories(c: Category)
    ensures |Buttons| == 4
    ensures exists i :: 0 <= i < |Buttons| && Buttons[i] == c
    ensures forall i, j :: 0 <= i < j < |Buttons| ==> Buttons[i] != Buttons[j]
  {
    match c
    case Anthropometric => assert Buttons[0] == c;
    case Performance => assert Buttons[1] == c;
    case Science => assert Buttons[2] == c;
    case Drills => assert Buttons[3] == c;
  }

  /**
   A button click: the clicked category becomes active, whatever was active
   before, and its button is then the only one highlighted.
   */
  function Select(active: Category, clicked: Category): (r: Category)
    ensures Highlighted(r, clicked)
    ensures forall i :: 0 <= i < |Buttons| && Highlighted(r, Buttons[i]) ==> Buttons[i] == clicked
  {
    clicked
  }

  /** Selection is unconditional and selecting the same category again changes nothing. */
  lemma SelectIdempotent(active: Category, c: Category)
    ensures Select(active, c) == c
    ensures Select(Select(active, c), c) == Select(active, c)
    ensures Highlighted(Select(active, c), c)
  {
  }

  /**
   A button is drawn highlighted when its key equals the active key; since
   keys are distinct, that is exactly when it is the active category.
   */
  predicate Highlighted(active: Category, item: Category): (h: bool)
    ensures h <==> active == item
  {
    Key(active) == Key(item)
  }

  /** Exactly one of the four buttons is highlighted: the active one. */
  lemma ExactlyOneHighlighted(active: Category)
    ensures exists i :: 0 <= i < |Buttons| && Highlighted(active, Buttons[i])
    ensures forall i :: 0 <= i < |Buttons| && Highlighted(active, Buttons[i]) ==> Buttons[i] == active
  {
    ButtonsEnumerateCategories(active);
  }

  /** The content bundle of the active category; the lookup is total. */
  function ContentOf(c: Category): (r: Content)
    ensures |r.tests| == 4
    ensures r.title == Label(Key(c))
  {
    match c
    case Anthropometric =>
      Content("Anthropometric Measurements",
              ["Height, Weight", "Hand Size", "Wingspan", "Body Composition"])
    case Performance =>
      Content("Performance Measures",
              ["40-Yard Dash", "Vertical Jump", "Bench Press", "Agility Drill"])
    case Science =>
      Content("Sports Science Assessments",
              ["Biomechanical Analysis", "VO2 Max Testing", "Cognitive Assessment", "Recovery Profile"])
    case Drills =>
      Content("Position-Specific Drills",
              ["Route Running", "Ball Skills", "Footwork", "Game Scenarios"])
  }

  /** Different categories show different titles. */
  lemma TitlesDistinct(c: Category, d: Category)
    requires c != d
    ensures ContentOf(c).title != ContentOf(d).title
  {
  }

  /**
   The text of a button: four conditional children of which at most one
   renders, so a key that matches none renders nothing.
   */
  function Label(key: string): (r: string)
    ensures FromKey(key).None? ==> r == []
  {
    (if key == "anthropometric" then "Anthropometric Measurements" else [])
    + (if key == "performance" then "Performance Measures" else [])
    + (if key == "science" then "Sports Science Assessments" else [])
    + (if key == "drills" then "Position-Specific Drills" else [])
  }

  /**
   The image number in the panel, chosen by a chain of key comparisons whose
   last branch is the fallback for every other key.
   */
  function ImageIndex(key: string): (n: int)
    ensures 1 <= n <= 4
    ensures FromKey(key).None? ==> n == 4
  {
    if key == "anthropometric" then 1
    else if key == "performance" then 2
    else if key == "science" then 3
    else 4
  }

  /** Each category gets its own image: 1, 2, 3 and 4 in button order. */
  lemma ImageIndexPerCategory(c: Category, d: Category)
    ensures ImageIndex(Key(Anthropometric)) == 1
    ensures ImageIndex(Key(Performance)) == 2
    ensures ImageIndex(Key(Science)) == 3
    ensures ImageIndex(Key(Drills)) == 4
    ensures ImageIndex(Key(c)) == ImageIndex(Key(d)) <==> c == d
  {
  }
}
