/** The two lifecycle blocks of translations/dnc_core.js.  On the way to OSM a `condition`
    tag is worked into one of four feature tags; on the way back the feature tags are
    cleaned up and the condition is recovered. */
module DncLifecycle {
  import opened Objects
  import opened Text

  const TYPES: seq<string> := ["highway", "bridge", "railway", "building"]

  /** What an unknown feature is assumed to be, in the order of TYPES. */
  const DEFAULTS: seq<string> := ["road", "yes", "rail", "yes"]

  // ----- To OSM -----

  /** The first feature tag with a value, or 4. */
  function FirstType(tags: Tags, m: nat): (n: nat)
    requires m <= |TYPES|
    ensures m <= n <= |TYPES|
    ensures n < |TYPES| ==> Truthy(tags, TYPES[n])
    ensures forall j :: m <= j < n ==> !Truthy(tags, TYPES[j])
    decreases |TYPES| - m
  {
    if m == |TYPES| || Truthy(tags, TYPES[m]) then m else FirstType(tags, m + 1)
  }

  function ToOsm(tags: Tags): Tags {
    var n := FirstType(tags, 0);
    if "condition" !in tags || n == |TYPES| then tags
    else
      var typ := TYPES[n];
      if tags["condition"] == "construction" then
        tags["construction" := tags[typ]][typ := "construction"] - {"condition"}
      else if tags["condition"] == "abandoned" then
        tags["abandoned:" + typ := tags[typ]] - {typ} - {"condition"}
      else if tags["condition"] == "dismantled" then
        tags["demolished:" + typ := tags[typ]] - {typ} - {"condition"}
      else tags
  }

  method FixLifecycleTags(given: Tags) returns (tags: Tags)
    ensures tags == ToOsm(given)
  {
    tags := given;
    if "condition" !in tags {
      return;
    }
    if tags["condition"] == "construction" {
      for t := 0 to |TYPES|
        invariant tags == given && FirstType(given, 0) == FirstType(given, t)
      {
        var typ := TYPES[t];
        if Truthy(tags, typ) {
          tags := tags["construction" := tags[typ]];
          tags := tags[typ := "construction"];
          tags := tags - {"condition"};
          return;
        }
      }
    } else if tags["condition"] == "abandoned" {
      for t := 0 to |TYPES|
        invariant tags == given && FirstType(given, 0) == FirstType(given, t)
      {
        var typ := TYPES[t];
        if Truthy(tags, typ) {
          tags := tags["abandoned:" + typ := tags[typ]];
          tags := tags - {typ};
          tags := tags - {"condition"};
          return;
        }
      }
    } else if tags["condition"] == "dismantled" {
      for t := 0 to |TYPES|
        invariant tags == given && FirstType(given, 0) == FirstType(given, t)
      {
        var typ := TYPES[t];
        if Truthy(tags, typ) {
          tags := tags["demolished:" + typ := tags[typ]];
          tags := tags - {typ};
          tags := tags - {"condition"};
          return;
        }
      }
    }
  }

  // ----- To OGR: the cleanup loop -----

  /** One visit of the cleanup loop. */
  function CleanKey(tags: Tags, key: string): Tags {
    if key !in tags then tags
    else if tags[key] == "" then tags - {key}
    else if "abandoned:" <= key || "disused:" <= key then
      Renamed(tags, key, ReplaceFirst(ReplaceFirst(key, "abandoned:", ""), "disused:", ""), "abandoned")
    else if "demolished:" <= key then Renamed(tags, key, ReplaceFirst(key, "demolished:", ""), "dismantled")
    else if "construction:" <= key then Renamed(tags, key, ReplaceFirst(key, "construction:", ""), "construction")
    else tags
  }

  function Renamed(tags: Tags, key: string, to: string, condition: string): Tags
    requires key in tags
  {
    tags[to := tags[key]]["condition" := condition] - {key}
  }

  function CleanKeys(tags: Tags, order: seq<string>): Tags
    decreases |order|
  {
    if |order| == 0 then tags else CleanKeys(CleanKey(tags, order[0]), order[1..])
  }

  // ----- To OGR: the feature tags -----

  function CycleType(tags: Tags, m: nat): Tags
    requires m < |TYPES|
  {
    var typ := TYPES[m];
    if typ !in tags then tags
    else if tags[typ] == "construction" then Reinstated(tags, m, "construction")
    else if tags[typ] == "proposed" then Reinstated(tags, m, "proposed")
    else if tags[typ] == "abandoned" || tags[typ] == "disused" then
      tags[typ := DEFAULTS[m]]["condition" := "abandoned"]
    else if tags[typ] == "destroyed" then tags[typ := DEFAULTS[m]]["condition" := "destroyed"]
    else if tags[typ] == "demolished" then tags[typ := DEFAULTS[m]]["condition" := "dismantled"]
    else tags
  }

  /** Take the real value from the tag named like the word, when there is one. */
  function Reinstated(tags: Tags, m: nat, word: string): Tags
    requires m < |TYPES|
  {
    (if Truthy(tags, word) then tags[TYPES[m] := tags[word]] - {word} else tags[TYPES[m] := DEFAULTS[m]])
    ["condition" := word]
  }

  function Cycle(tags: Tags, m: nat): Tags
    requires m <= |TYPES|
    decreases |TYPES| - m
  {
    if m == |TYPES| then tags else Cycle(CycleType(tags, m), m + 1)
  }

  function ToOgr(tags: Tags, order: seq<string>): Tags {
    Cycle(CleanKeys(tags, order), 0)
  }

  method CleanAndCycle(given: Tags, order: seq<string>) returns (tags: Tags)
    requires Enumerates(order, given)
    ensures tags == ToOgr(given, order)
  {
    tags := given;
    for n := 0 to |order|
      invariant CleanKeys(given, order) == CleanKeys(tags, order[n..])
    {
      var i := order[n];
      assert order[n..][1..] == order[n + 1..];
      if i in tags {
        if tags[i] == "" {
          tags := tags - {i};
        } else if "abandoned:" <= i || "disused:" <= i {
          var tTag := ReplaceFirst(ReplaceFirst(i, "abandoned:", ""), "disused:", "");
          tags := tags[tTag := tags[i]];
          tags := tags["condition" := "abandoned"];
          tags := tags - {i};
        } else if "demolished:" <= i {
          var tTag := ReplaceFirst(i, "demolished:", "");
          tags := tags[tTag := tags[i]];
          tags := tags["condition" := "dismantled"];
          tags := tags - {i};
        } else if "construction:" <= i {
          var tTag := ReplaceFirst(i, "construction:", "");
          tags := tags[tTag := tags[i]];
          tags := tags["condition" := "construction"];
          tags := tags - {i};
        }
      }
    }
    for m := 0 to |TYPES|
      invariant ToOgr(given, order) == Cycle(tags, m)
    {
      var typ := TYPES[m];
      if typ in tags {
        var value := tags[typ];
        if value == "construction" {
          if Truthy(tags, "construction") {
            tags := tags[typ := tags["construction"]];
            tags := tags - {"construction"};
          } else {
            tags := tags[typ := DEFAULTS[m]];
          }
          tags := tags["condition" := "construction"];
        } else if value == "proposed" {
          if Truthy(tags, "proposed") {
            tags := tags[typ := tags["proposed"]];
            tags := tags - {"proposed"};
          } else {
            tags := tags[typ := DEFAULTS[m]];
          }
          tags := tags["condition" := "proposed"];
        } else if value == "abandoned" || value == "disused" {
          tags := tags[typ := DEFAULTS[m]];
          tags := tags["condition" := "abandoned"];
        } else if value == "destroyed" {
          tags := tags[typ := DEFAULTS[m]];
          tags := tags["condition" := "destroyed"];
        } else if value == "demolished" {
          tags := tags[typ := DEFAULTS[m]];
          tags := tags["condition" := "dismantled"];
        }
      }
    }
  }
}
