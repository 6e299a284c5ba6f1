/** The business app's scan screen: a scanned record is filled in with
    default action options, its first option is selected, the camera is
    switched off, and the details are shown. JSON parsing is a library call:
    its outcome is an optional record. */
module ScanProduct {
  import opened Base

  datatype ActionOption = ActionOption(action: string, value: real)

  datatype ScannedRecord = ScannedRecord(
    name: string,
    id: string,
    price: real,
    ordered: string,
    received: string,
    condition: string,
    estimatedRefundValue: real,
    eligibleForResale: bool,
    repairsNeeded: bool,
    recommendedAction: string,
    actionOptions: Option<seq<ActionOption>>)

  const DefaultActionOptions: seq<ActionOption> := [
    ActionOption("Resell to online platform", 140.0),
    ActionOption("Auction to marketplace", 125.0),
    ActionOption("Go to SALE section", 75.0),
    ActionOption("Send to landfill", 0.0)
  ]

  datatype ScanState = ScanState(scanned: Option<ScannedRecord>, cameraActive: bool, selectedAction: Option<string>)

  const InitialScan: ScanState := ScanState(None, true, None)

  /** A record missing its options (absent or null) gets the defaults; an
      array, even an empty one, is kept. */
  function WithDefaults(r: ScannedRecord): (filled: ScannedRecord)
    ensures filled.actionOptions.Some?
  {
    if r.actionOptions.None? then r.(actionOptions := Some(DefaultActionOptions)) else r
  }

  /** `handleBarcodeScan` followed by the effect that switches the camera off
      whenever a record is stored. `parsed` is None when `JSON.parse` throws.
      The handler is attached to the camera view, so nothing is scanned once
      the camera is off. With an empty option array the read of the first
      option throws after the record is stored, so the selection is left as
      it was. */
  function Scan(s: ScanState, parsed: Option<ScannedRecord>): (next: ScanState)
    ensures !s.cameraActive || parsed.None? ==> next == s
    ensures s.cameraActive && parsed.Some? ==>
      !next.cameraActive && next.scanned == Some(WithDefaults(parsed.value))
    ensures next.selectedAction != s.selectedAction ==>
      next.scanned.Some? && next.scanned.value.actionOptions.Some? && |next.scanned.value.actionOptions.value| > 0 &&
      next.selectedAction == Some(next.scanned.value.actionOptions.value[0].action)
  {
    if !s.cameraActive then s
    else match parsed
      case None => s
      case Some(r) =>
        var filled := WithDefaults(r);
        var options := filled.actionOptions.value;
        if |options| == 0 then ScanState(Some(filled), false, s.selectedAction)
        else ScanState(Some(filled), false, Some(options[0].action))
  }

  /** Tapping an option. */
  function ChooseAction(s: ScanState, option: ActionOption): (next: ScanState)
    ensures next.scanned == s.scanned && next.cameraActive == s.cameraActive
    ensures RadioMarked(next, option)
    ensures forall other: ActionOption :: other.action != option.action ==> !RadioMarked(next, other)
  {
    s.(selectedAction := Some(option.action))
  }

  /** A radio is marked when its action equals the selection. */
  predicate RadioMarked(s: ScanState, option: ActionOption)
  {
    s.selectedAction == Some(option.action)
  }

  /** The details card and the bottom bar share one condition. */
  predicate DetailsShown(s: ScanState)
  {
    !s.cameraActive && s.scanned.Some?
  }

  /** The "No refurbishments needed" row is rendered inside the details card
      and carries a check mark when the record needs no repairs. */
  predicate NoRefurbishmentChecked(s: ScanState)
  {
    DetailsShown(s) && !s.scanned.value.repairsNeeded
  }

  /** The repair-steps section is rendered inside the details card, and only
      for a record that needs repairs. */
  predicate RepairStepsShown(s: ScanState)
  {
    DetailsShown(s) && s.scanned.value.repairsNeeded
  }

  /** The bottom bar's text: the selection, or a prompt when it is falsy. */
  function BottomBarLabel(s: ScanState): string
  {
    if Truthy(s.selectedAction) then s.selectedAction.value else "Select an action"
  }

  /** A record scanned without options is stored with the four defaults
      (140, 125, 75 and 0, in that order), the first of them is selected, and
      the details appear. */
  lemma ScanFillsDefaults(s: ScanState, r: ScannedRecord)
    requires s.cameraActive && r.actionOptions.None?
    ensures Scan(s, Some(r)).scanned == Some(r.(actionOptions := Some(DefaultActionOptions)))
    ensures |DefaultActionOptions| == 4
    ensures DefaultActionOptions[0].value == 140.0 && DefaultActionOptions[1].value == 125.0
    ensures DefaultActionOptions[2].value == 75.0 && DefaultActionOptions[3].value == 0.0
    ensures Scan(s, Some(r)).selectedAction == Some("Resell to online platform")
    ensures DetailsShown(Scan(s, Some(r)))
    ensures BottomBarLabel(Scan(s, Some(r))) == "Resell to online platform"
  {
  }

  /** A record that brings its own non-empty options keeps them unchanged,
      and its first option is selected. */
  lemma ScanKeepsOptions(s: ScanState, r: ScannedRecord)
    requires s.cameraActive && r.actionOptions.Some? && |r.actionOptions.value| > 0
    ensures Scan(s, Some(r)).scanned == Some(r)
    ensures Scan(s, Some(r)).selectedAction == Some(r.actionOptions.value[0].action)
    ensures DetailsShown(Scan(s, Some(r)))
  {
  }

  /** After any successful scan, a radio is marked exactly when its action is
      the first option's action, so the first option's radio is marked. */
  lemma ScanMarksFirstOption(s: ScanState, r: ScannedRecord, option: ActionOption)
    requires s.cameraActive
    requires r.actionOptions.None? || |r.actionOptions.value| > 0
    ensures var n := Scan(s, Some(r));
      && n.scanned.Some? && n.scanned.value.actionOptions.Some? && |n.scanned.value.actionOptions.value| > 0
      && (RadioMarked(n, option) <==> option.action == n.scanned.value.actionOptions.value[0].action)
  {
  }

  /** An empty option array is kept: the record is stored and the camera goes
      off, but no option is selected by the scan. */
  lemma ScanEmptyOptions(s: ScanState, r: ScannedRecord)
    requires s.cameraActive && r.actionOptions == Some([])
    ensures Scan(s, Some(r)) == ScanState(Some(r), false, s.selectedAction)
  {
  }

  /** A payload that does not parse changes nothing. */
  lemma ParseFailureChangesNothing(s: ScanState)
    ensures Scan(s, None) == s
  {
  }

  /** Once the camera is off, no sequence of further scans changes the state:
      the first record stays on screen. */
  lemma {:induction false} CameraOffIsFinal(s: ScanState, payloads: seq<Option<ScannedRecord>>)
    requires !s.cameraActive
    ensures ScanAll(s, payloads) == s
    decreases |payloads|
  {
    if |payloads| > 0 {
      CameraOffIsFinal(Scan(s, payloads[0]), payloads[1..]);
    }
  }

  /** Scanning each payload in turn. */
  function ScanAll(s: ScanState, payloads: seq<Option<ScannedRecord>>): ScanState
    decreases |payloads|
  {
    if |payloads| == 0 then s else ScanAll(Scan(s, payloads[0]), payloads[1..])
  }

  /** From the initial screen, the first payload that parses decides the
      record shown; failures before it are ignored. */
  lemma {:induction false} FirstParsedRecordWins(failures: nat, r: ScannedRecord, later: seq<Option<ScannedRecord>>)
    ensures ScanAll(InitialScan, seq(failures, _ => None) + [Some(r)] + later).scanned == Some(WithDefaults(r))
    decreases failures
  {
    var payloads := seq(failures, _ => None) + [Some(r)] + later;
    if failures == 0 {
      assert payloads[0] == Some(r) && payloads[1..] == later;
      CameraOffIsFinal(Scan(InitialScan, Some(r)), later);
    } else {
      assert payloads[0] == None;
      assert payloads[1..] == seq(failures - 1, _ => None) + [Some(r)] + later;
      FirstParsedRecordWins(failures - 1, r, later);
    }
  }

  /** Tapping an option marks its radio and names it in the bottom bar. */
  lemma ChooseMarks(s: ScanState, option: ActionOption)
    requires option.action != ""
    ensures RadioMarked(ChooseAction(s, option), option)
    ensures BottomBarLabel(ChooseAction(s, option)) == option.action
  {
  }

  /** While the camera is on, neither the repair steps nor the check mark is
      rendered. A scan from the camera shows the repair steps exactly when
      the scanned record needs repairs, and checks the "No refurbishments
      needed" row otherwise. Once the details are shown, exactly one of the
      two appears. */
  lemma RepairVisibility(s: ScanState, r: ScannedRecord)
    ensures s.cameraActive ==> !RepairStepsShown(s) && !NoRefurbishmentChecked(s)
    ensures s.cameraActive ==> (RepairStepsShown(Scan(s, Some(r))) <==> r.repairsNeeded)
    ensures s.cameraActive ==> (NoRefurbishmentChecked(Scan(s, Some(r))) <==> !r.repairsNeeded)
    ensures DetailsShown(s) ==> (RepairStepsShown(s) <==> !NoRefurbishmentChecked(s))
  {
  }
}
