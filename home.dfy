/**
 * The `Home` page component as an object: the three pieces of React state,
 * the `isInitialMount` ref, the saved item in local storage, and the effect
 * that saves the list whenever `cities` is replaced.
 */
module HomePage {
  import opened Wrappers
  import opened JsText
  import opened CityList

  class Home {
    /** `cities` state. */
    var cities: seq<string>
    /** `newCity` state: the text in the input. */
    var newCity: string
    /** `selectedCity` state; `None` is `null`. */
    var selectedCity: Option<string>
    /** `isInitialMount.current`. */
    var isInitialMount: bool
    /** The item saved under the storage key. */
    var storage: Stored
    /** The effect's run after the first commit has not happened yet. */
    var mountRunPending: bool
    /** `setCities` installed a new array since the effect on `[cities]` last ran. */
    var effectPending: bool
    /** `typeof window !== 'undefined'`. */
    const inBrowser: bool

    /** The list as saved in storage equals the current list. */
    predicate Saved()
      reads this
    {
      storage == Serialized(cities)
    }

    /**
     * The first-mount flag is still set exactly while the mount run is due,
     * or forever outside a browser, where the effect returns before clearing it.
     */
    predicate Valid()
      reads this
    {
      isInitialMount <==> mountRunPending || !inBrowser
    }

    /** The view below the form for the current state. */
    function CurrentView(): PageView
      reads this
    {
      View(cities, selectedCity)
    }

    /** Mounting: the list comes from storage, nothing is written, and the mount run of the effect is due. */
    constructor (inBrowser: bool, stored: Stored)
      ensures Valid() && this.inBrowser == inBrowser
      ensures cities == LoadCities(inBrowser, stored) && newCity == "" && selectedCity == None
      ensures isInitialMount && mountRunPending && !effectPending && storage == stored
    {
      this.inBrowser := inBrowser;
      cities := LoadCities(inBrowser, stored);
      newCity := "";
      selectedCity := None;
      isInitialMount := true;
      storage := stored;
      mountRunPending := true;
      effectPending := false;
    }

    /** The input's `onChange`. */
    method SetNewCity(value: string)
      requires Valid()
      modifies this
      ensures Valid()
      ensures newCity == value
      ensures cities == old(cities) && selectedCity == old(selectedCity) && storage == old(storage)
      ensures isInitialMount == old(isInitialMount) && mountRunPending == old(mountRunPending) && effectPending == old(effectPending)
    {
      newCity := value;
    }

    /**
     * `handleAddCity`, run by the add button and by Enter in the input. Its three
     * exits are those of `CityList.AddCity`; `setCities` runs only on the last.
     */
    method AddCity()
      requires Valid()
      modifies this
      ensures Valid()
      ensures var r := CityList.AddCity(old(cities), old(newCity));
        cities == r.cities && newCity == r.draft && effectPending == (old(effectPending) || r.listReplaced)
      ensures selectedCity == old(selectedCity) && storage == old(storage)
      ensures isInitialMount == old(isInitialMount) && mountRunPending == old(mountRunPending)
    {
      var outcome := CityList.AddCity(cities, newCity);
      if outcome.listReplaced {
        cities := outcome.cities;
        effectPending := true;
      }
      newCity := outcome.draft;
    }

    /** `handleRemoveCity`: the filter always installs a new array, so the effect is due even when nothing was removed. */
    method RemoveCity(city: string)
      requires Valid()
      modifies this
      ensures Valid()
      ensures cities == CityList.RemoveCity(old(cities), city) && effectPending
      ensures selectedCity == SelectionAfterRemove(old(selectedCity), city)
      ensures newCity == old(newCity) && storage == old(storage)
      ensures isInitialMount == old(isInitialMount) && mountRunPending == old(mountRunPending)
    {
      var kept := CityList.RemoveCity(cities, city);
      cities := kept;
      effectPending := true;
      if selectedCity == Some(city) {
        selectedCity := None;
      }
    }

    /** `handleOpenDetails`. */
    method OpenDetails(city: string)
      requires Valid()
      modifies this
      ensures Valid()
      ensures selectedCity == Some(city)
      ensures cities == old(cities) && newCity == old(newCity) && storage == old(storage)
      ensures isInitialMount == old(isInitialMount) && mountRunPending == old(mountRunPending) && effectPending == old(effectPending)
    {
      selectedCity := Some(city);
    }

    /** `handleBackToList`. */
    method BackToList()
      requires Valid()
      modifies this
      ensures Valid()
      ensures selectedCity == None
      ensures cities == old(cities) && newCity == old(newCity) && storage == old(storage)
      ensures isInitialMount == old(isInitialMount) && mountRunPending == old(mountRunPending) && effectPending == old(effectPending)
    {
      selectedCity := None;
    }

    /** One run of the effect on `[cities]`: outside a browser nothing; on the first run only the flag is cleared; later the list is saved. */
    method RunEffect()
      modifies this
      ensures storage == (if inBrowser && !old(isInitialMount) then Serialized(cities) else old(storage))
      ensures isInitialMount == (old(isInitialMount) && !inBrowser)
      ensures cities == old(cities) && newCity == old(newCity) && selectedCity == old(selectedCity)
      ensures mountRunPending == old(mountRunPending) && effectPending == old(effectPending)
    {
      if !inBrowser {
        return;
      }
      if isInitialMount {
        isInitialMount := false;
        return;
      }
      storage := Serialized(cities);
    }

    /**
     * What React does before the next render: flush the effect runs that are due,
     * the mount run first, then the run for a replaced `cities`. A list replaced
     * before the mount run is therefore still saved by the second run.
     */
    method AfterRender()
      requires Valid()
      modifies this
      ensures Valid() && !mountRunPending && !effectPending
      ensures storage == (if inBrowser && old(effectPending) then Serialized(cities) else old(storage))
      ensures isInitialMount == !inBrowser
      ensures inBrowser && old(effectPending) ==> Saved()
      ensures cities == old(cities) && newCity == old(newCity) && selectedCity == old(selectedCity)
    {
      if mountRunPending {
        mountRunPending := false;
        RunEffect();
      }
      if effectPending {
        effectPending := false;
        RunEffect();
      }
    }
  }

  /**
   * A whole session in a browser with nothing saved: add Kyiv, open it, go
   * back, delete it. The contracts above alone fix every intermediate state.
   */
  method Session()
  {
    var home := new Home(true, NoItem);
    assert home.CurrentView() == NoCitiesMessage;
    home.AfterRender();
    assert home.storage == NoItem;

    home.SetNewCity("Kyiv");
    assert IsTrimmed("Kyiv") && !IsBlank("Kyiv");
    TrimOfTrimmed("Kyiv");
    home.AddCity();
    assert home.cities == ["Kyiv"] && home.newCity == "";
    home.AfterRender();
    assert home.storage == Serialized(["Kyiv"]);
    assert home.CurrentView() == Cards(["Kyiv"]);

    home.OpenDetails("Kyiv");
    assert home.CurrentView() == Details("Kyiv");
    home.AfterRender();
    home.BackToList();
    assert home.CurrentView() == Cards(["Kyiv"]);

    home.RemoveCity("Kyiv");
    home.AfterRender();
    assert home.storage == Serialized([]);
    assert home.CurrentView() == NoCitiesMessage;
  }

  /** A city added before the mount run of the effect is saved all the same. */
  method AddBeforeFirstEffect()
  {
    var home := new Home(true, NoItem);
    home.SetNewCity("Kyiv");
    assert IsTrimmed("Kyiv") && !IsBlank("Kyiv");
    TrimOfTrimmed("Kyiv");
    home.AddCity();
    home.AfterRender();
    assert home.storage == Serialized(["Kyiv"]);
  }
}
