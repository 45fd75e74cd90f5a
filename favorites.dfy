/**
 * The two lists the page keeps in memory and changes on each click: the
 * favourite cities (main.js:313-338) and the selected travel interests
 * (main.js:1-17), and the favourites-first order of the city grid.
 */
module Favorites {
  import opened Text

  // ---------------------------------------------------------------------------
  // Removing every copy of a value (`list.filter(v => v !== x)`)
  // ---------------------------------------------------------------------------

  function Remove<T(==)>(s: seq<T>, x: T): seq<T>
    decreases |s|
  {
    if s == [] then [] else (if s[0] == x then [] else [s[0]]) + Remove(s[1..], x)
  }

  /** What survives the filter: exactly the other values. */
  lemma {:induction false} RemoveMembers<T>(s: seq<T>, x: T, y: T)
    ensures y in Remove(s, x) <==> y in s && y != x
    decreases |s|
  {
    if s != [] {
      RemoveMembers(s[1..], x, y);
      assert s == [s[0]] + s[1..];
    }
  }

  /** Filtering out a value that is not there changes nothing. */
  lemma {:induction false} RemoveAbsent<T>(s: seq<T>, x: T)
    requires x !in s
    ensures Remove(s, x) == s
    decreases |s|
  {
    if s != [] {
      RemoveAbsent(s[1..], x);
      assert s == [s[0]] + s[1..];
    }
  }

  /** A value appended and then filtered out leaves the rest as it was. */
  lemma {:induction false} RemoveAppended<T>(s: seq<T>, x: T)
    ensures Remove(s + [x], x) == Remove(s, x)
    decreases |s|
  {
    if s == [] {
      assert [x][1..] == [];
    } else {
      RemoveAppended(s[1..], x);
      assert (s + [x])[1..] == s[1..] + [x];
    }
  }

  /** The filter keeps a list free of repeats. */
  lemma {:induction false} RemoveDistinct<T>(s: seq<T>, x: T)
    requires Distinct(s)
    ensures Distinct(Remove(s, x))
    decreases |s|
  {
    if s != [] {
      RemoveDistinct(s[1..], x);
      RemoveMembers(s[1..], x, s[0]);
      var r := Remove(s[1..], x);
      if s[0] != x {
        assert s[0] !in s[1..];
        assert forall j :: 0 <= j < |r| ==> ([s[0]] + r)[j + 1] == r[j];
      }
    }
  }

  /** Appending a value the list lacks keeps it free of repeats. */
  lemma AppendDistinct<T>(s: seq<T>, x: T)
    requires Distinct(s) && x !in s
    ensures Distinct(s + [x])
  {
  }

  // ---------------------------------------------------------------------------
  // Favourite cities
  // ---------------------------------------------------------------------------

  /** The favourites after a star is clicked: removed when present, appended when not (main.js:318-324). */
  function Toggled(favorites: seq<string>, city: string): seq<string> {
    if city in favorites then Remove(favorites, city) else favorites + [city]
  }

  /** The star flips for the city clicked and for no other. */
  lemma ToggledMembers(favorites: seq<string>, city: string, other: string)
    ensures city in Toggled(favorites, city) <==> city !in favorites
    ensures other != city ==> (other in Toggled(favorites, city) <==> other in favorites)
  {
    if city in favorites {
      RemoveMembers(favorites, city, city);
      RemoveMembers(favorites, city, other);
    }
  }

  /** Starring a city and unstarring it again restores the list exactly. */
  lemma ToggleTwice(favorites: seq<string>, city: string)
    requires city !in favorites
    ensures Toggled(Toggled(favorites, city), city) == favorites
  {
    RemoveAppended(favorites, city);
    RemoveAbsent(favorites, city);
  }

  /** Toggling never creates a repeated favourite. */
  lemma ToggledDistinct(favorites: seq<string>, city: string)
    requires Distinct(favorites)
    ensures Distinct(Toggled(favorites, city))
  {
    if city in favorites {
      RemoveDistinct(favorites, city);
    }
  }

  /**
   * The page's `favorites` list, read from storage at start-up (main.js:313)
   * and changed in place by `toggleFavorite` (main.js:318-327).
   */
  class FavoriteList {
    var favorites: seq<string>

    /** What storage held, or nothing (`|| []`). */
    constructor(stored: seq<string>)
      ensures favorites == stored
    {
      favorites := stored;
    }

    method Toggle(city: string)
      modifies this
      ensures favorites == Toggled(old(favorites), city)
    {
      if city in favorites {
        favorites := Remove(favorites, city);
      } else {
        favorites := favorites + [city];
      }
    }
  }

  // ---------------------------------------------------------------------------
  // The favourites-first grid order
  // ---------------------------------------------------------------------------

  datatype City = City(name: string, image: string)

  /** The cities whose name is a favourite, in catalogue order. */
  function Starred(all: seq<City>, favorites: seq<string>): seq<City>
    decreases |all|
  {
    if all == [] then []
    else (if all[0].name in favorites then [all[0]] else []) + Starred(all[1..], favorites)
  }

  /** The other cities, in catalogue order. */
  function Unstarred(all: seq<City>, favorites: seq<string>): seq<City>
    decreases |all|
  {
    if all == [] then []
    else (if all[0].name in favorites then [] else [all[0]]) + Unstarred(all[1..], favorites)
  }

  /** The starred filter keeps catalogue order: it works on a catalogue piece by piece. */
  lemma {:induction false} StarredAppend(a: seq<City>, b: seq<City>, favorites: seq<string>)
    ensures Starred(a + b, favorites) == Starred(a, favorites) + Starred(b, favorites)
    decreases |a|
  {
    if a == [] {
      assert Starred(a + b, favorites) == Starred(a, favorites) + Starred(b, favorites) by {
        assert a + b == b;
      }
    } else {
      assert Starred(a + b, favorites) == Starred(a, favorites) + Starred(b, favorites) by {
        StarredAppend(a[1..], b, favorites);
        FiltersCons(a, b, favorites);
        var head, x, y := Starred([a[0]], favorites), Starred(a[1..], favorites), Starred(b, favorites);
        assert head + (x + y) == (head + x) + y;
      }
    }
  }

  /** The unstarred filter keeps catalogue order likewise. */
  lemma {:induction false} UnstarredAppend(a: seq<City>, b: seq<City>, favorites: seq<string>)
    ensures Unstarred(a + b, favorites) == Unstarred(a, favorites) + Unstarred(b, favorites)
    decreases |a|
  {
    if a == [] {
      assert Unstarred(a + b, favorites) == Unstarred(a, favorites) + Unstarred(b, favorites) by {
        assert a + b == b;
      }
    } else {
      assert Unstarred(a + b, favorites) == Unstarred(a, favorites) + Unstarred(b, favorites) by {
        UnstarredAppend(a[1..], b, favorites);
        FiltersCons(a, b, favorites);
        var head, x, y := Unstarred([a[0]], favorites), Unstarred(a[1..], favorites), Unstarred(b, favorites);
        assert head + (x + y) == (head + x) + y;
      }
    }
  }

  /** One step of either filter, with and without a catalogue after it. */
  lemma FiltersCons(a: seq<City>, b: seq<City>, favorites: seq<string>)
    requires a != []
    ensures Starred(a + b, favorites) == Starred([a[0]], favorites) + Starred(a[1..] + b, favorites)
    ensures Starred(a, favorites) == Starred([a[0]], favorites) + Starred(a[1..], favorites)
    ensures Unstarred(a + b, favorites) == Unstarred([a[0]], favorites) + Unstarred(a[1..] + b, favorites)
    ensures Unstarred(a, favorites) == Unstarred([a[0]], favorites) + Unstarred(a[1..], favorites)
  {
    assert (a + b)[0] == a[0] && (a + b)[1..] == a[1..] + b;
    FilterOne(a[0], favorites);
  }

  /** On one city the two filters split it: it is starred exactly when its name is a favourite. */
  lemma FilterOne(c: City, favorites: seq<string>)
    ensures Starred([c], favorites) == (if c.name in favorites then [c] else [])
    ensures Unstarred([c], favorites) == (if c.name in favorites then [] else [c])
  {
    assert [c][1..] == [];
  }

  /** Every city the starred filter keeps is from the catalogue and a favourite. */
  lemma {:induction false} StarredMembers(all: seq<City>, favorites: seq<string>)
    ensures forall c :: c in Starred(all, favorites) ==> c in all && c.name in favorites
    decreases |all|
  {
    if all != [] {
      StarredMembers(all[1..], favorites);
    }
  }

  /** Every city the other filter keeps is from the catalogue and not a favourite. */
  lemma {:induction false} UnstarredMembers(all: seq<City>, favorites: seq<string>)
    ensures forall c :: c in Unstarred(all, favorites) ==> c in all && c.name !in favorites
    decreases |all|
  {
    if all != [] {
      UnstarredMembers(all[1..], favorites);
    }
  }

  /** `getSortedCities` (main.js:332-338). */
  function SortedCities(all: seq<City>, favorites: seq<string>): seq<City> {
    Starred(all, favorites) + Unstarred(all, favorites)
  }

  /** The two filters split the catalogue between them. */
  lemma {:induction false} SplitCatalogue(all: seq<City>, favorites: seq<string>)
    ensures multiset(Starred(all, favorites)) + multiset(Unstarred(all, favorites)) == multiset(all)
    decreases |all|
  {
    if all != [] {
      SplitCatalogue(all[1..], favorites);
      assert all == [all[0]] + all[1..];
    }
  }

  /** The grid shows every city exactly as often as the catalogue lists it. */
  lemma SortedIsPermutation(all: seq<City>, favorites: seq<string>)
    ensures multiset(SortedCities(all, favorites)) == multiset(all)
  {
    SplitCatalogue(all, favorites);
  }

  /** Favourites come first: no starred city follows an unstarred one. */
  lemma StarredFirst(all: seq<City>, favorites: seq<string>)
    ensures var r := SortedCities(all, favorites);
      forall i, j :: 0 <= i < j < |r| && r[j].name in favorites ==> r[i].name in favorites
  {
    var s, u := Starred(all, favorites), Unstarred(all, favorites);
    var r := s + u;
    StarredMembers(all, favorites);
    UnstarredMembers(all, favorites);
    forall i, j | 0 <= i < j < |r| && r[j].name in favorites
      ensures r[i].name in favorites
    {
      assert r[i] == s[i] && r[i] in s;
    }
  }

  /** With no favourites the grid keeps the catalogue order. */
  lemma {:induction false} NoFavoritesKeepsOrder(all: seq<City>)
    ensures SortedCities(all, []) == all
    decreases |all|
  {
    if all != [] {
      NoFavoritesKeepsOrder(all[1..]);
      StarredMembers(all[1..], []);
      assert all == [all[0]] + all[1..];
    }
  }

  // ---------------------------------------------------------------------------
  // Travel interests
  // ---------------------------------------------------------------------------

  /**
   * The interest buttons (main.js:1-17): each has its text and an `active`
   * mark; `selected` is the list sent along with the trip request.
   */
  class InterestButtons {
    const labels: seq<string>
    var active: seq<bool>
    var selected: seq<string>

    /** The interest a button stands for: its text without surrounding spaces. */
    function Interest(i: int): string
      requires 0 <= i < |labels|
    {
      Trim(Js, labels[i])
    }

    /** One `active` mark per button. */
    ghost predicate WellFormed()
      reads this
    {
      |active| == |labels|
    }

    /**
     * The selection is exactly the interests of the active buttons, once
     * each. It holds while no two buttons read the same.
     */
    ghost predicate Valid()
      reads this
    {
      && WellFormed()
      && (forall i, j :: 0 <= i < j < |labels| ==> Interest(i) != Interest(j))
      && (forall i :: 0 <= i < |labels| ==> (Interest(i) in selected <==> active[i]))
      && (forall x :: x in selected ==> exists i :: 0 <= i < |labels| && Interest(i) == x)
      && Distinct(selected)
    }

    /**
     * The page starts with nothing selected (main.js:2). That every button
     * starts off is an assumption: the page's markup decides it, not main.js.
     */
    constructor(texts: seq<string>)
      ensures WellFormed()
      ensures labels == texts && selected == [] && active == seq(|texts|, _ => false)
      ensures (forall i, j :: 0 <= i < j < |labels| ==> Interest(i) != Interest(j)) ==> Valid()
    {
      labels := texts;
      active := seq(|texts|, _ => false);
      selected := [];
    }

    /**
     * A click flips the button, then appends its interest or filters out
     * every copy of it, whatever the other buttons read.
     */
    method Click(i: int)
      requires 0 <= i < |labels| && WellFormed()
      modifies this
      ensures WellFormed()
      ensures active == old(active)[i := !old(active)[i]]
      ensures selected == if active[i] then old(selected) + [Interest(i)] else Remove(old(selected), Interest(i))
      ensures old(Valid()) ==> Valid()
    {
      ghost var wasValid := Valid();
      active := active[i := !active[i]];
      var interest := Interest(i);
      if active[i] {
        if wasValid {
          AppendDistinct(selected, interest);
        }
        selected := selected + [interest];
      } else {
        if wasValid {
          RemoveDistinct(selected, interest);
        }
        forall y {
          RemoveMembers(selected, interest, y);
        }
        selected := Remove(selected, interest);
      }
    }
  }

  /**
   * Two buttons that read the same: after turning both on and the first
   * off again, the second still shows as active but its interest is gone.
   */
  method TwinButtonsLoseInterest(text: string) returns (active: seq<bool>, selected: seq<string>)
    ensures active == [false, true]
    ensures selected == []
  {
    var b := new InterestButtons([text, text]);
    b.Click(0);
    b.Click(1);
    var x := Trim(Js, text);
    assert b.selected == [x, x];
    assert Remove([x], x) == [] by {
      assert [x][1..] == [];
    }
    assert Remove([x, x], x) == [] by {
      assert [x, x][1..] == [x];
    }
    b.Click(0);
    active, selected := b.active, b.selected;
  }
}
