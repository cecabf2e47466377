/**
 Worked examples of the exporter loop on concrete names.
 */
module Examples {
  import opened Ascii
  import opened Naming
  import opened Decimal
  import opened Collision

  lemma JoinTwo(a: string, b: string)
    ensures JoinCapitalized([a, b]) == Capitalize(a) + Capitalize(b)
  {
    assert [a, b][1..] == [b];
    assert [b][1..] == [];
    assert JoinCapitalized([b]) == Capitalize(b) + "";
    assert Capitalize(b) + "" == Capitalize(b);
  }

  lemma LowerFirstAppend(a: string, b: string)
    requires a != []
    ensures LowerFirst(a + b) == LowerFirst(a) + b
  {
    assert (a + b)[1..] == a[1..] + b;
  }

  lemma SplitArrowLeft()
    ensures Split("arrow left") == ["arrow", "left"]
  {
    assert "arrow left" == "arrow" + " " + "left";
    SplitAtSpace("arrow", "left");
    SplitNoSpace("left");
  }

  lemma CapitalizedWords()
    ensures Capitalize("arrow") + Capitalize("left") == "Arrow" + "Left"
  {
    assert Capitalize("arrow") == "Arrow";
    assert Capitalize("left") == "Left";
  }

  lemma CamelArrowLeft()
    ensures LowerFirst(JoinCapitalized(["arrow", "left"])) == "arrowLeft"
  {
    JoinTwo("arrow", "left");
    CapitalizedWords();
    LowerFirstAppend("Arrow", "Left");
    assert LowerFirst("Arrow") == "arrow";
    assert "arrow" + "Left" == "arrowLeft";
  }

  lemma LoweredArrowLeft()
    ensures LowerString("Arrow Left") == "arrow left"
  {
    var s := "Arrow Left";
    var t := "arrow left";
    assert forall i :: 0 <= i < |s| ==> ToLower(s[i]) == t[i];
  }

  lemma SanitizedArrowLeft()
    ensures Sanitize("arrow left") == "arrow left"
  {
    var s := "arrow left";
    assert forall i :: 0 <= i < |s| ==> Kept(s[i]);
  }

  /** A space-separated display name becomes camel case. */
  lemma NormalizeArrowLeft()
    ensures Normalize("Arrow Left") == "arrowLeft"
  {
    LoweredArrowLeft();
    SanitizedArrowLeft();
    SplitArrowLeft();
    CamelArrowLeft();
  }

  /** Three records that all normalise to `home`: suffixes accumulate. */
  lemma HomeCollisions()
    ensures Resolve("home", [], 1) == "home"
    ensures Resolve("home", ["home"], 1) == "home1"
    ensures Resolve("home", ["home", "home1"], 1) == "home12"
  {
    assert Show(1) == "1";
    assert Show(2) == "2";
    assert "home" + "1" == "home1";
    assert "home1" + "2" == "home12";
    assert "home12" != "home" && "home12" != "home1";
    assert Resolve("home1", ["home", "home1"], 2) == Resolve("home12", ["home", "home1"], 3);
  }
}
