/** The announcement form of the administrator: the target roles and
    classes are chosen by toggling values in and out of two lists, and a
    successful send resets the form. */
module Announcements {
  import opened Seqs

  datatype AnnouncementForm = AnnouncementForm(
    title: string,
    message: string,
    target_roles: seq<string>,
    target_classes: seq<string>)

  /** The form as it opens and as it is left after a successful send. */
  const EmptyForm := AnnouncementForm("", "", [], [])

  function Other(v: string): string -> bool {
    (x: string) => x != v
  }

  /** No value occurs twice. */
  predicate Distinct(xs: seq<string>) {
    forall i, j :: 0 <= i < j < |xs| ==> xs[i] != xs[j]
  }

  /** The toggle of `toggleRole` and `toggleClass`: a value in the list is
      removed, every occurrence of it; a value not in it is appended. */
  function Toggle(xs: seq<string>, v: string): (r: seq<string>)
    ensures v in xs ==> v !in r && forall x :: x in r <==> x in xs && x != v
    ensures v !in xs ==> r == xs + [v]
  {
    if v in xs then Filter(xs, Other(v)) else xs + [v]
  }

  /** Keeping a filter's output through the same filter changes nothing. */
  lemma FilterOtherTwice(xs: seq<string>, v: string)
    ensures Filter(Filter(xs, Other(v)), Other(v)) == Filter(xs, Other(v))
  {
    FilterAll(Filter(xs, Other(v)), Other(v));
  }

  /** Toggling a value that is not in the list twice gives the list back. */
  lemma ToggleTwiceRestores(xs: seq<string>, v: string)
    requires v !in xs
    ensures Toggle(Toggle(xs, v), v) == xs
  {
    FilterSnoc(xs, v, Other(v));
    FilterAll(xs, Other(v));
    assert xs + [] == xs;
  }

  /** A toggle keeps every other value, in the same relative order. */
  lemma ToggleKeepsOthers(xs: seq<string>, v: string)
    ensures Filter(Toggle(xs, v), Other(v)) == Filter(xs, Other(v))
  {
    if v in xs {
      FilterOtherTwice(xs, v);
    } else {
      FilterSnoc(xs, v, Other(v));
      assert Filter(xs, Other(v)) + [] == Filter(xs, Other(v));
    }
  }

  /** Filtering a list without repeats gives a list without repeats. */
  lemma {:induction false} FilterDistinct(xs: seq<string>, p: string -> bool)
    requires Distinct(xs)
    ensures Distinct(Filter(xs, p))
  {
    if xs != [] {
      assert Distinct(xs[1..]) by {
        forall i, j | 0 <= i < j < |xs[1..]|
          ensures xs[1..][i] != xs[1..][j]
        {
          assert xs[1..][i] == xs[i + 1] && xs[1..][j] == xs[j + 1];
        }
      }
      FilterDistinct(xs[1..], p);
      if p(xs[0]) {
        var rest := Filter(xs[1..], p);
        assert xs[0] !in xs[1..];
        assert xs[0] !in rest;
        var r := [xs[0]] + rest;
        forall i, j | 0 <= i < j < |r|
          ensures r[i] != r[j]
        {
          if i == 0 {
            assert r[j] == rest[j - 1];
          } else {
            assert r[i] == rest[i - 1] && r[j] == rest[j - 1];
          }
        }
      }
    }
  }

  /** Toggles keep a list without repeats free of repeats. */
  lemma ToggleKeepsDistinct(xs: seq<string>, v: string)
    requires Distinct(xs)
    ensures Distinct(Toggle(xs, v))
  {
    if v in xs {
      FilterDistinct(xs, Other(v));
    } else {
      var r := xs + [v];
      forall i, j | 0 <= i < j < |r|
        ensures r[i] != r[j]
      {
        if j == |xs| {
          assert r[i] == xs[i];
        } else {
          assert r[i] == xs[i] && r[j] == xs[j];
        }
      }
    }
  }

  /** `toggleRole`: only the target roles change. */
  function ToggleRole(form: AnnouncementForm, role: string): (r: AnnouncementForm)
    ensures r.target_roles == Toggle(form.target_roles, role)
    ensures r.(target_roles := form.target_roles) == form
  {
    form.(target_roles := Toggle(form.target_roles, role))
  }

  /** `toggleClass`: only the target classes change. */
  function ToggleClass(form: AnnouncementForm, cls: string): (r: AnnouncementForm)
    ensures r.target_classes == Toggle(form.target_classes, cls)
    ensures r.(target_classes := form.target_classes) == form
  {
    form.(target_classes := Toggle(form.target_classes, cls))
  }

  /** The form after `handleCreate` succeeds: whatever it held, it is empty
      again; after a failure it is kept. */
  function AfterCreate(form: AnnouncementForm, succeeded: bool): (r: AnnouncementForm)
    ensures succeeded ==> r.title == "" && r.message == "" && r.target_roles == [] && r.target_classes == []
    ensures !succeeded ==> r == form
  {
    if succeeded then EmptyForm else form
  }
}
