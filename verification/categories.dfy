/** The pictogram library: categories in display order, and the merge that files a
    newly created pictogram under the "Coisas" category. */
module Categories {
  import opened Wrappers
  import opened Types

  /** The category that receives pictograms the user creates. */
  const Coisas: string := "Coisas"

  /** `cats.find(c => c.name === name)`: the first category of that name. */
  function FindByName(cats: seq<PictogramCategory>, name: string): (r: Option<PictogramCategory>)
    ensures r.None? <==> forall i :: 0 <= i < |cats| ==> cats[i].name != name
    ensures r.Some? ==> exists i :: 0 <= i < |cats| && cats[i] == r.value && cats[i].name == name
                          && forall j :: 0 <= j < i ==> cats[j].name != name
  {
    if cats == [] then None
    else if cats[0].name == name then Some(cats[0])
    else
      var r := FindByName(cats[1..], name);
      assert r.Some? ==> exists i :: 1 <= i < |cats| && cats[i] == r.value && cats[i].name == name
                          && forall j :: 0 <= j < i ==> cats[j].name != name by {
        if r.Some? {
          var i :| 0 <= i < |cats[1..]| && cats[1..][i] == r.value && cats[1..][i].name == name
                   && forall j :: 0 <= j < i ==> cats[1..][j].name != name;
          assert cats[i + 1] == r.value;
          assert forall j :: 1 <= j < i + 1 ==> cats[j].name != name by {
            forall j | 1 <= j < i + 1 ensures cats[j].name != name {
              assert cats[j] == cats[1..][j - 1];
            }
          }
        }
      }
      r
  }

  /** `cats.filter(c => c.name !== name)`. */
  function WithoutName(cats: seq<PictogramCategory>, name: string): (r: seq<PictogramCategory>)
    ensures |r| <= |cats|
    ensures forall c :: c in r <==> c in cats && c.name != name
  {
    if cats == [] then []
    else if cats[0].name == name then WithoutName(cats[1..], name)
    else [cats[0]] + WithoutName(cats[1..], name)
  }

  /** Filtering distributes over concatenation, so the kept categories stay in
      their original relative order. */
  lemma {:induction false} WithoutNameAppend(a: seq<PictogramCategory>, b: seq<PictogramCategory>, name: string)
    ensures WithoutName(a + b, name) == WithoutName(a, name) + WithoutName(b, name)
    decreases |a|
  {
    if a == [] {
      assert a + b == b;
    } else {
      assert (a + b)[0] == a[0];
      assert (a + b)[1..] == a[1..] + b;
      WithoutNameAppend(a[1..], b, name);
    }
  }

  /** A list without a category of that name is left as it is by the filter. */
  lemma {:induction false} WithoutNameAbsent(cats: seq<PictogramCategory>, name: string)
    requires forall i :: 0 <= i < |cats| ==> cats[i].name != name
    ensures WithoutName(cats, name) == cats
    decreases |cats|
  {
    if cats != [] {
      WithoutNameAbsent(cats[1..], name);
      assert [cats[0]] + cats[1..] == cats;
    }
  }

  /** The state update of a successful creation: every category other than
      "Coisas" in its original order, followed by one "Coisas" category whose
      list is the first existing "Coisas" list (or none) with `p` appended. */
  function AddToCoisas(cats: seq<PictogramCategory>, p: Pictogram): (r: seq<PictogramCategory>)
    ensures |r| >= 1
    ensures r[|r| - 1].name == Coisas
    ensures forall i :: 0 <= i < |r| - 1 ==> r[i].name != Coisas
    ensures r[..|r| - 1] == WithoutName(cats, Coisas)
    ensures r[|r| - 1].pictograms ==
              (match FindByName(cats, Coisas)
               case Some(c) => c.pictograms
               case None => []) + [p]
  {
    var coisas := FindByName(cats, Coisas).GetOr(PictogramCategory(Coisas, []));
    var others := WithoutName(cats, Coisas);
    assert forall i :: 0 <= i < |others| ==> others[i] in others;
    others + [coisas.(pictograms := coisas.pictograms + [p])]
  }

  /** After a creation the categories other than "Coisas" are exactly those that
      were there before, unchanged and in the same order. */
  lemma AddToCoisasKeepsOthers(cats: seq<PictogramCategory>, p: Pictogram)
    ensures WithoutName(AddToCoisas(cats, p), Coisas) == WithoutName(cats, Coisas)
  {
    var r := AddToCoisas(cats, p);
    var others := r[..|r| - 1];
    assert r == others + [r[|r| - 1]];
    WithoutNameAppend(others, [r[|r| - 1]], Coisas);
    WithoutNameAbsent(others, Coisas);
    assert WithoutName([r[|r| - 1]], Coisas) == [];
  }

  /** Two creations in a row leave both new pictograms at the end of the "Coisas"
      list, in creation order. */
  lemma AddToCoisasTwice(cats: seq<PictogramCategory>, p: Pictogram, q: Pictogram)
    ensures var r := AddToCoisas(AddToCoisas(cats, p), q);
            |r[|r| - 1].pictograms| >= 2
            && r[|r| - 1].pictograms[|r[|r| - 1].pictograms| - 2..] == [p, q]
  {
    var r1 := AddToCoisas(cats, p);
    var found := FindByName(r1, Coisas);
    assert found == Some(r1[|r1| - 1]);
  }

  /** With no "Coisas" category yet, a creation adds one holding just `p`, after
      every existing category. */
  lemma AddToCoisasCreatesCategory(cats: seq<PictogramCategory>, p: Pictogram)
    requires forall i :: 0 <= i < |cats| ==> cats[i].name != Coisas
    ensures AddToCoisas(cats, p) == cats + [PictogramCategory(Coisas, [p])]
  {
    WithoutNameAbsent(cats, Coisas);
    var r := AddToCoisas(cats, p);
    assert r[|r| - 1] == PictogramCategory(Coisas, [p]);
    assert r == r[..|r| - 1] + [r[|r| - 1]];
  }
}
