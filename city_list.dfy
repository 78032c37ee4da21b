/**
 * The pure parts of the page component: reading the saved list, the list
 * updates made by the add and remove handlers, and the choice of what the
 * page shows below the input form.
 */
module CityList {
  import opened Wrappers
  import opened JsText

  /** What `JSON.parse` produced: an array (of city names) or any other JSON value. */
  datatype JsonValue = JsonArray(items: seq<string>) | JsonNonArray

  /**
   * The item stored under the key `weather_cities`, as `getItem` and `JSON.parse` see it: no item
   * (`null`), the empty string, text that `JSON.parse` rejects, or text that parses.
   */
  datatype Stored = NoItem | EmptyString | Unparsable | Parses(value: JsonValue)

  /** `JSON.stringify(cities)`, described by what parsing it gives back. */
  function Serialized(cities: seq<string>): Stored {
    Parses(JsonArray(cities))
  }

  /**
   * `loadCitiesFromStorage`: never fails; the parsed array when there is one,
   * otherwise the empty list. Outside a browser there is no storage at all.
   */
  function LoadCities(inBrowser: bool, stored: Stored): (r: seq<string>)
    ensures r != [] ==> inBrowser && stored.Parses? && stored.value.JsonArray?
    ensures inBrowser && stored.Parses? && stored.value.JsonArray? ==> r == stored.value.items
  {
    if !inBrowser then []
    else match stored
      case NoItem => []
      case EmptyString => []
      case Unparsable => []
      case Parses(v) => if v.JsonArray? then v.items else []
  }

  /**
   * Loading what the page last saved gives back the list it saved. This holds
   * by the definition of `Serialized` alone: it records the assumption that
   * `JSON.parse` undoes `JSON.stringify` on an array of strings, not a property
   * the page's own code establishes.
   */
  lemma LoadAfterSave(cities: seq<string>)
    ensures LoadCities(true, Serialized(cities)) == cities
  {
  }

  /** No city occurs twice. */
  predicate Distinct(cities: seq<string>) {
    forall i, j :: 0 <= i < j < |cities| ==> cities[i] != cities[j]
  }

  /** The list and the draft after the add handler, and whether `setCities` was called. */
  datatype AddOutcome = AddOutcome(cities: seq<string>, draft: string, listReplaced: bool)

  /** `handleAddCity`: ignore a blank draft, consume a duplicate, otherwise append the trimmed name. */
  function AddCity(cities: seq<string>, draft: string): (r: AddOutcome)
    ensures |cities| <= |r.cities| <= |cities| + 1 && r.cities[..|cities|] == cities
    ensures r.listReplaced <==> |r.cities| == |cities| + 1
    ensures r.listReplaced ==> r.cities[|cities|] == Trim(draft)
    ensures r.draft == "" || r.draft == draft
    ensures r.draft == draft && draft != "" ==> IsBlank(draft)
  {
    TrimEmptyIffBlank(draft);
    var trimmed := Trim(draft);
    if trimmed == [] then AddOutcome(cities, draft, false)
    else if trimmed in cities then AddOutcome(cities, "", false)
    else AddOutcome(cities + [trimmed], "", true)
  }

  /** The list is replaced only for a trimmed draft that is not yet listed. */
  lemma AddReplacesOnlyForNew(cities: seq<string>, draft: string)
    ensures AddCity(cities, draft).listReplaced ==> Trim(draft) !in cities && Trim(draft) != []
  {
  }

  /** A blank draft changes neither the list nor the draft. */
  lemma AddBlankIsNoOp(cities: seq<string>, draft: string)
    requires IsBlank(draft)
    ensures AddCity(cities, draft) == AddOutcome(cities, draft, false)
  {
    TrimEmptyIffBlank(draft);
  }

  /** A draft whose trimmed form is already listed leaves the list alone and clears the draft. */
  lemma AddDuplicateClearsDraft(cities: seq<string>, draft: string)
    requires !IsBlank(draft) && Trim(draft) in cities
    ensures AddCity(cities, draft) == AddOutcome(cities, "", false)
  {
    TrimEmptyIffBlank(draft);
  }

  /** Any other draft is appended, trimmed, at the end, and the draft is cleared. */
  lemma AddNewAppends(cities: seq<string>, draft: string)
    requires !IsBlank(draft) && Trim(draft) !in cities
    ensures AddCity(cities, draft) == AddOutcome(cities + [Trim(draft)], "", true)
    ensures Trim(draft) != [] && IsTrimmed(Trim(draft))
  {
    TrimEmptyIffBlank(draft);
    TrimIsTrimmed(draft);
  }

  /** Adding keeps a duplicate-free list duplicate-free, and every new entry is a non-empty trimmed name. */
  lemma AddKeepsDistinct(cities: seq<string>, draft: string)
    requires Distinct(cities)
    ensures Distinct(AddCity(cities, draft).cities)
    ensures forall c :: c in AddCity(cities, draft).cities && c !in cities ==> c != [] && IsTrimmed(c)
  {
    var r := AddCity(cities, draft);
    if r.listReplaced {
      var t := Trim(draft);
      TrimIsTrimmed(draft);
      assert r.cities == cities + [t];
      forall i, j | 0 <= i < j < |r.cities| ensures r.cities[i] != r.cities[j] {
        if j == |cities| {
          assert r.cities[i] == cities[i];
        } else {
          assert r.cities[i] == cities[i] && r.cities[j] == cities[j];
        }
      }
    }
  }

  /** The cities after adding are the old ones plus the trimmed draft when that is not blank. */
  lemma AddMembership(cities: seq<string>, draft: string, c: string)
    ensures c in AddCity(cities, draft).cities <==> c in cities || (c == Trim(draft) && !IsBlank(draft))
  {
    TrimEmptyIffBlank(draft);
  }

  /** Pressing add a second time with the same draft adds nothing more. */
  lemma AddTwiceIsAddOnce(cities: seq<string>, draft: string)
    ensures AddCity(AddCity(cities, draft).cities, draft).cities == AddCity(cities, draft).cities
  {
    var r := AddCity(cities, draft);
    if r.listReplaced {
      assert Trim(draft) == r.cities[|cities|];
    }
  }

  /** `cities.filter((c) => c !== city)`. */
  function RemoveCity(cities: seq<string>, city: string): (r: seq<string>)
    ensures |r| <= |cities|
    ensures forall c :: c in r <==> c in cities && c != city
    ensures multiset(r) == multiset(cities)[city := 0]
  {
    if cities == [] then []
    else
      var rest := RemoveCity(cities[1..], city);
      assert cities == [cities[0]] + cities[1..];
      if cities[0] == city then rest else [cities[0]] + rest
  }

  /** Removing works piecewise, so the kept cities stay in their relative order. */
  lemma {:induction false} RemoveCityConcat(a: seq<string>, b: seq<string>, city: string)
    ensures RemoveCity(a + b, city) == RemoveCity(a, city) + RemoveCity(b, city)
  {
    if a != [] {
      assert (a + b)[0] == a[0] && (a + b)[1..] == a[1..] + b;
      RemoveCityConcat(a[1..], b, city);
    } else {
      assert a + b == b;
    }
  }

  /** Removing a city that is not listed changes nothing. */
  lemma {:induction false} RemoveAbsentIsNoOp(cities: seq<string>, city: string)
    requires city !in cities
    ensures RemoveCity(cities, city) == cities
  {
    if cities != [] {
      RemoveAbsentIsNoOp(cities[1..], city);
    }
  }

  /** Removing keeps a duplicate-free list duplicate-free. */
  lemma {:induction false} RemoveKeepsDistinct(cities: seq<string>, city: string)
    requires Distinct(cities)
    ensures Distinct(RemoveCity(cities, city))
  {
    if cities != [] {
      assert Distinct(cities[1..]) by {
        forall i, j | 0 <= i < j < |cities| - 1 ensures cities[1..][i] != cities[1..][j] {
          assert cities[1..][i] == cities[i + 1] && cities[1..][j] == cities[j + 1];
        }
      }
      RemoveKeepsDistinct(cities[1..], city);
      assert cities[0] !in cities[1..] by {
        forall k | 0 <= k < |cities| - 1 ensures cities[1..][k] != cities[0] {
          assert cities[1..][k] == cities[k + 1];
        }
      }
      var rest := RemoveCity(cities[1..], city);
      if cities[0] != city {
        var r := [cities[0]] + rest;
        forall i, j | 0 <= i < j < |r| ensures r[i] != r[j] {
          if i == 0 {
            assert r[j] == rest[j - 1] && r[j] in rest;
          } else {
            assert r[i] == rest[i - 1] && r[j] == rest[j - 1];
          }
        }
      }
    }
  }

  /** Deleting a city just added restores the list as it was before. */
  lemma RemoveUndoesAdd(cities: seq<string>, draft: string)
    requires !IsBlank(draft) && Trim(draft) !in cities
    ensures RemoveCity(AddCity(cities, draft).cities, Trim(draft)) == cities
  {
    AddNewAppends(cities, draft);
    RemoveCityConcat(cities, [Trim(draft)], Trim(draft));
    RemoveAbsentIsNoOp(cities, Trim(draft));
  }

  /** The selection after removing `city`: cleared exactly when it was that city. */
  function SelectionAfterRemove(selected: Option<string>, city: string): (r: Option<string>)
    ensures r == None || r == selected
    ensures r == None <==> selected == None || selected == Some(city)
  {
    if selected == Some(city) then None else selected
  }

  /** What the page shows below the form. */
  datatype PageView =
    | Details(city: string)
    | NoCitiesMessage
    | Cards(cities: seq<string>)

  /** JavaScript truthiness of `selectedCity`: neither `null` nor the empty string. */
  predicate IsSelected(selected: Option<string>) {
    selected.Some? && selected.value != ""
  }

  /** The view selection: details for a selected city, else an empty-list message, else one card per city. */
  function View(cities: seq<string>, selected: Option<string>): (r: PageView)
    ensures r.Details? <==> IsSelected(selected)
    ensures r.Details? ==> Some(r.city) == selected
    ensures r.NoCitiesMessage? <==> !IsSelected(selected) && cities == []
    ensures r.Cards? ==> r.cities == cities && |r.cities| > 0
  {
    if IsSelected(selected) then Details(selected.value)
    else if |cities| == 0 then NoCitiesMessage
    else Cards(cities)
  }

  /** Removing the city whose details are open brings the page back to the list. */
  lemma RemoveSelectedShowsList(cities: seq<string>, city: string)
    ensures !View(RemoveCity(cities, city), SelectionAfterRemove(Some(city), city)).Details?
  {
  }

  /** Removing some other city keeps the open details, and in list view drops exactly that city's card. */
  lemma RemoveOtherKeepsView(cities: seq<string>, selected: Option<string>, city: string)
    requires selected != Some(city)
    ensures var v := View(RemoveCity(cities, city), SelectionAfterRemove(selected, city));
      (IsSelected(selected) ==> v == View(cities, selected)) &&
      (v.Cards? ==> v.cities == RemoveCity(cities, city) && city !in v.cities)
  {
  }
}
