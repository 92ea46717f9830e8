/** `updateActiveNav`: every `.nav-btn` (desktop and mobile alike) whose
    `data-section` equals the argument is styled active, every other one
    inactive. A button's styling is its set of CSS classes. */
module ActiveNav {

  const Active := "active"
  const Green := "bg-green-600"
  const White := "text-white"
  const Gray := "text-gray-600"

  /** The four classes `updateActiveNav` adds and removes. */
  predicate IsStyling(name: string) {
    name == Active || name == Green || name == White || name == Gray
  }

  /** The active branch: add `active`, remove `text-gray-600`, add
      `bg-green-600` and `text-white`; any other class is kept. */
  function Highlighted(c: set<string>): (r: set<string>)
    ensures Active in r && Green in r && White in r && Gray !in r
    ensures forall name :: !IsStyling(name) ==> (name in r <==> name in c)
  {
    ((c + {Active}) - {Gray}) + {Green, White}
  }

  /** The inactive branch: remove `active`, add `text-gray-600`, remove
      `bg-green-600` and `text-white`; any other class is kept. */
  function Dimmed(c: set<string>): (r: set<string>)
    ensures Active !in r && Green !in r && White !in r && Gray in r
    ensures forall name :: !IsStyling(name) ==> (name in r <==> name in c)
  {
    ((c - {Active}) + {Gray}) - {Green, White}
  }

  /** The class sets of all buttons after `updateActiveNav(id)`, given the
      `data-section` of each. A button is active, green and white exactly
      when its section is `id`, grey exactly when it is not, and classes
      other than the four styling ones are kept. */
  function Restyled(classes: seq<set<string>>, sections: seq<string>, id: string): (r: seq<set<string>>)
    requires |classes| == |sections|
    ensures |r| == |classes|
    ensures forall i :: 0 <= i < |r| ==> (Active in r[i] <==> sections[i] == id)
    ensures forall i :: 0 <= i < |r| ==> (Green in r[i] <==> sections[i] == id) && (White in r[i] <==> sections[i] == id)
    ensures forall i :: 0 <= i < |r| ==> (Gray in r[i] <==> sections[i] != id)
    ensures forall i, name :: 0 <= i < |r| && !IsStyling(name) ==> (name in r[i] <==> name in classes[i])
  {
    seq(|classes|, i requires 0 <= i < |classes| =>
      if sections[i] == id then Highlighted(classes[i]) else Dimmed(classes[i]))
  }

  /** The sections of the buttons styled active. */
  function ActiveOf(classes: seq<set<string>>, sections: seq<string>): set<string>
    requires |classes| == |sections|
  {
    set i | 0 <= i < |sections| && Active in classes[i] :: sections[i]
  }

  /** After the update the active buttons all point at `id`, and there is
      one unless no button has that section. */
  lemma ActiveAfterUpdate(classes: seq<set<string>>, sections: seq<string>, id: string)
    requires |classes| == |sections|
    ensures ActiveOf(Restyled(classes, sections, id), sections) == if id in sections then {id} else {}
  {
    var r := Restyled(classes, sections, id);
    if id in sections {
      var i :| 0 <= i < |sections| && sections[i] == id;
      assert Active in r[i];
    }
  }

  lemma HighlightedAfterAny(c: set<string>)
    ensures Highlighted(Highlighted(c)) == Highlighted(c)
    ensures Highlighted(Dimmed(c)) == Highlighted(c)
  {
    assert Highlighted(Highlighted(c)) == Highlighted(c) by {
      forall name ensures name in Highlighted(Highlighted(c)) <==> name in Highlighted(c) {
        if !IsStyling(name) {
        }
      }
    }
    assert Highlighted(Dimmed(c)) == Highlighted(c) by {
      forall name ensures name in Highlighted(Dimmed(c)) <==> name in Highlighted(c) {
        if !IsStyling(name) {
        }
      }
    }
  }

  lemma DimmedAfterAny(c: set<string>)
    ensures Dimmed(Highlighted(c)) == Dimmed(c)
    ensures Dimmed(Dimmed(c)) == Dimmed(c)
  {
    assert Dimmed(Highlighted(c)) == Dimmed(c) by {
      forall name ensures name in Dimmed(Highlighted(c)) <==> name in Dimmed(c) {
        if !IsStyling(name) {
        }
      }
    }
    assert Dimmed(Dimmed(c)) == Dimmed(c) by {
      forall name ensures name in Dimmed(Dimmed(c)) <==> name in Dimmed(c) {
        if !IsStyling(name) {
        }
      }
    }
  }

  /** Only the latest call matters: whatever section was highlighted before,
      updating to `id` gives the same classes as updating to `id` alone. */
  lemma LatestCallDecides(classes: seq<set<string>>, sections: seq<string>, before: string, id: string)
    requires |classes| == |sections|
    ensures Restyled(Restyled(classes, sections, before), sections, id) == Restyled(classes, sections, id)
  {
    var once := Restyled(classes, sections, before);
    forall i | 0 <= i < |classes|
      ensures Restyled(once, sections, id)[i] == Restyled(classes, sections, id)[i]
    {
      HighlightedAfterAny(classes[i]);
      DimmedAfterAny(classes[i]);
    }
  }

  /** Updating twice to the same section is the same as updating once. */
  lemma UpdateIdempotent(classes: seq<set<string>>, sections: seq<string>, id: string)
    requires |classes| == |sections|
    ensures Restyled(Restyled(classes, sections, id), sections, id) == Restyled(classes, sections, id)
  {
    LatestCallDecides(classes, sections, id, id);
  }

  /** The navigation buttons: the `data-section` of each, fixed by the
      page, and the class list of each, which `updateActiveNav` edits. */
  class NavBar {
    const sections: seq<string>
    const classes: array<set<string>>

    ghost predicate Valid()
      reads this
    {
      classes.Length == |sections|
    }

    constructor (sections: seq<string>, initial: seq<set<string>>)
      requires |initial| == |sections|
      ensures Valid() && fresh(classes)
      ensures this.sections == sections && classes[..] == initial
    {
      this.sections := sections;
      classes := new set<string>[|initial|](i requires 0 <= i < |initial| => initial[i]);
    }

    /** `updateActiveNav(id)`: one pass over the buttons. */
    method UpdateActiveNav(id: string)
      requires Valid()
      modifies classes
      ensures Valid()
      ensures classes[..] == Restyled(old(classes[..]), sections, id)
    {
      for i := 0 to classes.Length
        invariant forall k :: 0 <= k < i ==>
          classes[k] == if sections[k] == id then Highlighted(old(classes[k])) else Dimmed(old(classes[k]))
        invariant forall k :: i <= k < classes.Length ==> classes[k] == old(classes[k])
      {
        if sections[i] == id {
          classes[i] := Highlighted(classes[i]);
        } else {
          classes[i] := Dimmed(classes[i]);
        }
      }
    }
  }
}
