/**
 * The search mode: read from the radio group (ids containing "silver" or
 * "gold"), or from the legacy mode buttons when the page has no radios; and
 * the arrow-key cycling of the checked radio.
 */
module ModeSelector {
  import opened Strings

  /** A radio input of the `plan` group. */
  datatype Radio = Radio(id: string, checked: bool)

  /** A legacy `.mode` button: its `data-mode` value and whether it carries `active`. */
  datatype ModeButton = ModeButton(mode: string, active: bool)

  /** `radios[i]` is the first checked radio, the one `find`/`findIndex` return. */
  predicate IsFirstChecked(radios: seq<Radio>, i: int) {
    0 <= i < |radios| && radios[i].checked && forall j :: 0 <= j < i ==> !radios[j].checked
  }

  /** `radioInputs.findIndex(r => r.checked)`: the first checked index, or -1. */
  function FindChecked(radios: seq<Radio>): (idx: int)
    ensures -1 <= idx < |radios|
    ensures idx == -1 <==> forall j :: 0 <= j < |radios| ==> !radios[j].checked
    ensures idx != -1 ==> IsFirstChecked(radios, idx)
  {
    if radios == [] then -1
    else if radios[0].checked then 0
    else
      var k := FindChecked(radios[1..]);
      if k == -1 then -1 else k + 1
  }

  /** `buttons[i]` is the first button marked `active`. */
  predicate IsFirstActive(buttons: seq<ModeButton>, i: int) {
    0 <= i < |buttons| && buttons[i].active && forall j :: 0 <= j < i ==> !buttons[j].active
  }

  /** `modes.find(b => b.classList.contains('active'))` as an index, or -1. */
  function FindActive(buttons: seq<ModeButton>): (idx: int)
    ensures -1 <= idx < |buttons|
    ensures idx == -1 <==> forall j :: 0 <= j < |buttons| ==> !buttons[j].active
    ensures idx != -1 ==> IsFirstActive(buttons, idx)
  {
    if buttons == [] then -1
    else if buttons[0].active then 0
    else
      var k := FindActive(buttons[1..]);
      if k == -1 then -1 else k + 1
  }

  /** `getActiveMode()` */
  function GetActiveMode(radios: seq<Radio>, buttons: seq<ModeButton>): (mode: string)
    ensures |radios| > 0 ==> mode == "code" || mode == "study"
    ensures |radios| > 0 && FindChecked(radios) == -1 ==> mode == "code"
    ensures |radios| == 0 && FindActive(buttons) == -1 ==> mode == "code"
  {
    if |radios| > 0 then
      var idx := FindChecked(radios);
      if idx == -1 then "code"
      else if Contains(radios[idx].id, "silver") then "code"
      else if Contains(radios[idx].id, "gold") then "study"
      else "code"
    else
      var b := FindActive(buttons);
      if b == -1 then "code" else buttons[b].mode
  }

  /**
   * With radios present the mode is `"code"` or `"study"`, and it is `"study"`
   * exactly when the first checked radio's id contains "gold" and not "silver";
   * with no radio checked it is `"code"`.
   */
  lemma ModeFromRadios(radios: seq<Radio>, buttons: seq<ModeButton>)
    requires |radios| > 0
    ensures GetActiveMode(radios, buttons) == "code" || GetActiveMode(radios, buttons) == "study"
    ensures GetActiveMode(radios, buttons) == "study" <==>
      exists i :: IsFirstChecked(radios, i)
        && (exists k :: OccursAt(radios[i].id, "gold", k))
        && !(exists k :: OccursAt(radios[i].id, "silver", k))
    ensures (forall j :: 0 <= j < |radios| ==> !radios[j].checked) ==> GetActiveMode(radios, buttons) == "code"
  {
    var idx := FindChecked(radios);
    if idx != -1 {
      ContainsIffOccurs(radios[idx].id, "gold");
      ContainsIffOccurs(radios[idx].id, "silver");
      forall i | IsFirstChecked(radios, i) ensures i == idx {
      }
    }
  }

  /** Without radios the mode is the first active legacy button's, or `"code"` when none is active. */
  lemma ModeFromButtons(buttons: seq<ModeButton>)
    ensures (forall j :: 0 <= j < |buttons| ==> !buttons[j].active) ==> GetActiveMode([], buttons) == "code"
    ensures forall i :: IsFirstActive(buttons, i) ==> GetActiveMode([], buttons) == buttons[i].mode
  {
    var b := FindActive(buttons);
    forall i | IsFirstActive(buttons, i) ensures GetActiveMode([], buttons) == buttons[i].mode {
    }
  }

  /** `(idx + (right ? 1 : n - 1)) % n`: the neighbour of `idx`, wrapping at both ends. */
  function NextIndex(idx: nat, n: nat, right: bool): (next: nat)
    requires idx < n
    ensures next < n
  {
    (idx + (if right then 1 else n - 1)) % n
  }

  /** `x % n` for `0 <= x < 2n`: at most one wrap. */
  lemma ModOnce(x: int, n: int)
    requires n > 0 && 0 <= x < 2 * n
    ensures x % n == if x < n then x else x - n
  {
    var q, r := x / n, x % n;
    assert x == q * n + r;
  }

  /** Right moves one radio on and wraps from the last to the first; Left moves back and wraps to the last. */
  lemma NextIndexWraps(idx: nat, n: nat, right: bool)
    requires idx < n
    ensures right ==> NextIndex(idx, n, right) == if idx + 1 < n then idx + 1 else 0
    ensures !right ==> NextIndex(idx, n, right) == if idx == 0 then n - 1 else idx - 1
  {
    ModOnce(idx + (if right then 1 else n - 1), n);
  }

  /** Right then Left, or Left then Right, comes back to the same radio. */
  lemma NextIndexInverse(idx: nat, n: nat, right: bool)
    requires idx < n
    ensures NextIndex(NextIndex(idx, n, right), n, !right) == idx
  {
    NextIndexWraps(idx, n, right);
    NextIndexWraps(NextIndex(idx, n, right), n, !right);
  }

  /** The index after `k` presses of the same arrow. */
  function Presses(idx: nat, n: nat, right: bool, k: nat): (r: nat)
    requires idx < n
    ensures r < n
  {
    if k == 0 then idx else NextIndex(Presses(idx, n, right, k - 1), n, right)
  }

  /** Up to a whole round, `k` presses move `k` places, wrapping once at most. */
  lemma {:induction false} PressesMoveBy(idx: nat, n: nat, right: bool, k: nat)
    requires idx < n && k <= n
    ensures right ==> Presses(idx, n, right, k) == if idx + k < n then idx + k else idx + k - n
    ensures !right ==> Presses(idx, n, right, k) == if k <= idx then idx - k else idx - k + n
  {
    if k > 0 {
      PressesMoveBy(idx, n, right, k - 1);
      NextIndexWraps(Presses(idx, n, right, k - 1), n, right);
    }
  }

  /** Pressing the same arrow once per radio goes round the whole group back to the start. */
  lemma FullCycle(idx: nat, n: nat, right: bool)
    requires idx < n
    ensures Presses(idx, n, right, n) == idx
  {
    PressesMoveBy(idx, n, right, n);
  }

  /** At most one radio of the group is checked: the browser keeps a radio group this way. */
  predicate AtMostOneChecked(radios: seq<Radio>) {
    forall i, j :: 0 <= i < |radios| && 0 <= j < |radios| && radios[i].checked && radios[j].checked ==> i == j
  }

  /** `radios[k].checked = true` in a radio group: `k` becomes the only checked radio. */
  function CheckOnly(radios: seq<Radio>, k: nat): (r: seq<Radio>)
    requires k < |radios|
    ensures |r| == |radios| && AtMostOneChecked(r)
    ensures forall j :: 0 <= j < |r| ==> r[j].id == radios[j].id && (r[j].checked <==> j == k)
  {
    seq(|radios|, j requires 0 <= j < |radios| => radios[j].(checked := j == k))
  }

  /** The arrow-key handler's effect on the group: nothing when no radio is checked, else the neighbour is checked. */
  function CycleRadios(radios: seq<Radio>, right: bool): (r: seq<Radio>)
    ensures |r| == |radios|
    ensures FindChecked(radios) == -1 ==> r == radios
    ensures FindChecked(radios) != -1 ==>
      AtMostOneChecked(r) && r[NextIndex(FindChecked(radios), |radios|, right)].checked
  {
    var idx := FindChecked(radios);
    if idx == -1 then radios else CheckOnly(radios, NextIndex(idx, |radios|, right))
  }

  lemma FindCheckedOnly(radios: seq<Radio>, k: nat)
    requires k < |radios|
    ensures FindChecked(CheckOnly(radios, k)) == k
  {
    var r := CheckOnly(radios, k);
    var f := FindChecked(r);
    assert r[k].checked;
  }

  /** Checking the radio that is already the only checked one changes nothing. */
  lemma CheckOnlyChecked(radios: seq<Radio>, k: nat)
    requires k < |radios| && AtMostOneChecked(radios) && radios[k].checked
    ensures CheckOnly(radios, k) == radios
  {
    var r := CheckOnly(radios, k);
    forall j | 0 <= j < |radios| ensures r[j] == radios[j] {
      if j != k {
        assert !radios[j].checked;
      }
    }
  }

  lemma CheckOnlyTwice(radios: seq<Radio>, a: nat, b: nat)
    requires a < |radios| && b < |radios|
    ensures CheckOnly(CheckOnly(radios, a), b) == CheckOnly(radios, b)
  {
  }

  /** One arrow and then the opposite one restore the group exactly. */
  lemma CycleRadiosInverse(radios: seq<Radio>, right: bool)
    requires AtMostOneChecked(radios)
    ensures CycleRadios(CycleRadios(radios, right), !right) == radios
  {
    var idx := FindChecked(radios);
    if idx != -1 {
      var n := |radios|;
      var next := NextIndex(idx, n, right);
      FindCheckedOnly(radios, next);
      NextIndexInverse(idx, n, right);
      CheckOnlyTwice(radios, next, idx);
      CheckOnlyChecked(radios, idx);
    }
  }

  /** Cycling keeps the group's ids and keeps at most one radio checked; a checked radio stays checked. */
  lemma CycleRadiosKeepsGroup(radios: seq<Radio>, right: bool)
    requires AtMostOneChecked(radios)
    ensures var r := CycleRadios(radios, right);
      |r| == |radios| && AtMostOneChecked(r)
      && (forall j :: 0 <= j < |r| ==> r[j].id == radios[j].id)
      && (FindChecked(r) == -1 <==> FindChecked(radios) == -1)
  {
    var idx := FindChecked(radios);
    if idx != -1 {
      var next := NextIndex(idx, |radios|, right);
      assert CycleRadios(radios, right)[next].checked;
    }
  }
}
