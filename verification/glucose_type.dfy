/**
 * The blood-glucose type classifier (`determineTypeOfBG`): ordered whitelist
 * rules over a sample's source name and bundle identifier decide between
 * continuous ("cbg") and self-monitored ("smbg") glucose.
 */
module GlucoseType {
  import opened BundleIds

  datatype BgType = Cbg | Smbg {
    /** The value written into an upload record's "type" field. */
    function Tag(): (t: string)
      ensures t == "cbg" || t == "smbg"
      ensures (t == "cbg") <==> Cbg?
    {
      match this
      case Cbg => "cbg"
      case Smbg => "smbg"
    }
  }

  const CbgSources: set<string> := {"Loop", "BGMTool"}
  const CbgBundleIds: set<string> := {"com.dexcom.Share2", "com.dexcom.CGM", "com.dexcom.G6"}
  const CbgBundleComponents: set<string> := {"loopkit"}
  const LoopSuffix: string := ".Loop"

  /** Rules 1-4 in the order the classifier tries them; the first that holds yields "cbg". */
  function DetermineTypeOfBG(sourceName: string, bundleId: string): (r: BgType)
    ensures sourceName in CbgSources ==> r == Cbg
    ensures bundleId in CbgBundleIds ==> r == Cbg
    ensures HasSuffix(bundleId, LoopSuffix) ==> r == Cbg
    ensures (exists c | c in Components(bundleId) :: c in CbgBundleComponents) ==> r == Cbg
    ensures r == Smbg ==>
              && sourceName !in CbgSources
              && bundleId !in CbgBundleIds
              && !HasSuffix(bundleId, LoopSuffix)
              && "loopkit" !in Components(bundleId)
  {
    if sourceName in CbgSources then Cbg
    else if bundleId in CbgBundleIds then Cbg
    else if HasSuffix(bundleId, LoopSuffix) then Cbg
    else if AnyWhitelistedComponent(Components(bundleId)) then Cbg
    else Smbg
  }

  /** The loop over the bundle id's components, returning at the first whitelisted one. */
  function AnyWhitelistedComponent(comps: seq<string>): (found: bool)
    ensures found <==> exists i | 0 <= i < |comps| :: comps[i] in CbgBundleComponents
  {
    if |comps| == 0 then false
    else if comps[0] in CbgBundleComponents then true
    else
      assert forall i | 1 <= i < |comps| :: comps[i] == comps[1..][i - 1];
      AnyWhitelistedComponent(comps[1..])
  }

  /**
   * An independent reading of the rules in terms of the components alone:
   * a ".Loop" suffix is a last component "Loop" behind at least one dot.
   */
  predicate ContinuousProvenance(sourceName: string, bundleId: string) {
    var cs := Components(bundleId);
    || sourceName in CbgSources
    || bundleId in CbgBundleIds
    || (|cs| >= 2 && cs[|cs| - 1] == "Loop")
    || "loopkit" in cs
  }

  lemma ClassifierMatchesComponentReading(sourceName: string, bundleId: string)
    ensures DetermineTypeOfBG(sourceName, bundleId) == Cbg <==> ContinuousProvenance(sourceName, bundleId)
    ensures DetermineTypeOfBG(sourceName, bundleId) == Smbg <==> !ContinuousProvenance(sourceName, bundleId)
  {
    DotSuffixIsLastComponent(bundleId, "Loop");
    assert LoopSuffix == "." + "Loop";
  }

  /** Rule 1 wins whatever the bundle identifier says. */
  lemma SourceNameWins(sourceName: string, bundleId: string)
    requires sourceName == "Loop" || sourceName == "BGMTool"
    ensures DetermineTypeOfBG(sourceName, bundleId).Tag() == "cbg"
  {
  }

  /** A dotted ".Loop" suffix counts. */
  lemma DottedLoopSuffixIsCbg()
    ensures DetermineTypeOfBG("MyApp", "com.example.MyApp.Loop") == Cbg
  {
  }

  /** "Loop" glued onto the last component is not the suffix rule. */
  lemma GluedLoopSuffixIsSmbg(s: string)
    requires s == "x.MyAppLoop"
    ensures DetermineTypeOfBG("MyApp", s) == Smbg
  {
    var cs := ["x", "MyAppLoop"];
    assert Join(cs[1..]) == "MyAppLoop";
    assert Join(cs) == s;
    ComponentsUnique(cs, s);
    assert !ContinuousProvenance("MyApp", s) by {
      assert "MyApp" !in CbgSources;
      assert s !in CbgBundleIds;
      assert cs[1] != "Loop";
      assert "loopkit" !in cs;
    }
    ClassifierMatchesComponentReading("MyApp", s);
  }

  /** A whole component "loopkit" counts. */
  lemma LoopkitComponentIsCbg(s: string)
    requires s == "com.acme.loopkit.ext"
    ensures DetermineTypeOfBG("Acme", s) == Cbg
  {
    var cs := ["com", "acme", "loopkit", "ext"];
    assert Join(cs[3..]) == "ext";
    assert Join(cs[2..]) == "loopkit.ext";
    assert Join(cs[1..]) == "acme.loopkit.ext";
    assert Join(cs) == s;
    ComponentsUnique(cs, s);
    ClassifierMatchesComponentReading("Acme", s);
  }

  /** The component rule compares whole components, not substrings. */
  lemma LoopkitSubstringIsSmbg(s: string)
    requires s == "com.acme.loopkitx"
    ensures DetermineTypeOfBG("Acme", s) == Smbg
  {
    var cs := ["com", "acme", "loopkitx"];
    assert Join(cs[2..]) == "loopkitx";
    assert Join(cs[1..]) == "acme.loopkitx";
    assert Join(cs) == s;
    ComponentsUnique(cs, s);
    assert !ContinuousProvenance("Acme", s) by {
      assert "Acme" !in CbgSources;
      assert s !in CbgBundleIds;
      assert cs[2] != "Loop";
      assert "loopkit" !in cs;
    }
    ClassifierMatchesComponentReading("Acme", s);
  }
}
