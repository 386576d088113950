/** What a choice and its members are worth, told by positions: who is asked first, and what a default gives. */
module ChoiceMeaning {
  import T = Tristate
  import opened Options
  import opened Expr
  import opened ChoiceSpec
  import opened SymbolMeaning
  import S = SymbolSpec

  /** Is the symbol visible at all? */
  ghost predicate CanBeSeen(m: Model, i: Symbol, v: Valuation) {
    exists t :: t != T.No && IsShown(m.g, i, v, t)
  }

  lemma SeenIffSelectable(m: Model, i: Symbol, v: Valuation)
    ensures CanBeSeen(m, i, v) <==> Selectable(m, i, v)
  {
    hide S.Visible, IsShown;
    ShownIff(m.g, i, v, S.Visible(m.g, i, v));
    forall t | IsShown(m.g, i, v, t) ensures t == S.Visible(m.g, i, v) { ShownIff(m.g, i, v, t); }
  }

  predicate IsMet(d: Default, v: Valuation) {
    EvalOpt(d.cond, v) != T.No
  }

  /** Default k of the choice is met and its member can be seen. */
  ghost predicate Offers(m: Model, c: Symbol, v: Valuation, k: nat)
    requires m.role(c).Choice?
  {
    var ds := m.role(c).defaults;
    k < |ds| && IsMet(ds[k], v) && CanBeSeen(m, ds[k].member, v)
  }

  ghost predicate UserOffers(m: Model, c: Symbol, v: Valuation) {
    m.userPick(c).Some? && CanBeSeen(m, m.userPick(c).value, v)
  }

  ghost predicate NoDefaultOffers(m: Model, c: Symbol, v: Valuation, n: nat)
    requires m.role(c).Choice?
  {
    forall j: nat :: j < n ==> !Offers(m, c, v, j)
  }

  ghost predicate MemberSeen(m: Model, c: Symbol, v: Valuation, k: nat)
    requires m.role(c).Choice?
  {
    k < |m.role(c).members| && CanBeSeen(m, m.role(c).members[k], v)
  }

  /** Nobody can be had: no member can be seen, neither as the user's nor as a default. */
  ghost predicate NothingOffered(m: Model, c: Symbol, v: Valuation)
    requires m.role(c).Choice?
  {
    !UserOffers(m, c, v) && NoDefaultOffers(m, c, v, |m.role(c).defaults|) && forall k: nat :: !MemberSeen(m, c, v, k)
  }

  lemma {:induction false} FirstDefaultAt(m: Model, ds: seq<Default>, v: Valuation, k: nat)
    requires k <= |ds| && forall j: nat :: j < k ==> !(IsMet(ds[j], v) && Selectable(m, ds[j].member, v))
    ensures k == |ds| ==> FirstDefault(m, ds, v) == None
    ensures k < |ds| && IsMet(ds[k], v) && Selectable(m, ds[k].member, v) ==>
      FirstDefault(m, ds, v) == Some(ds[k].member)
  {
    hide Selectable;
    if k > 0 {
      assert forall j: nat :: j < k - 1 ==> ds[1..][j] == ds[j + 1];
      FirstDefaultAt(m, ds[1..], v, k - 1);
    }
  }

  lemma {:induction false} FirstMemberAt(m: Model, members: seq<Symbol>, v: Valuation, k: nat)
    requires k <= |members| && forall j: nat :: j < k ==> !Selectable(m, members[j], v)
    ensures k == |members| ==> FirstMember(m, members, v) == None
    ensures k < |members| && Selectable(m, members[k], v) ==> FirstMember(m, members, v) == Some(members[k])
  {
    hide Selectable;
    if k > 0 {
      assert forall j: nat :: j < k - 1 ==> members[1..][j] == members[j + 1];
      FirstMemberAt(m, members[1..], v, k - 1);
    }
  }

  /** The order of preference: the user's member if it can be seen; without it the first default that is met and
      whose member can be seen; without any the first member that can be seen; otherwise nothing. */
  lemma PickedMeans(m: Model, c: Symbol, v: Valuation)
    requires m.role(c).Choice?
    ensures UserOffers(m, c, v) ==> Picked(m, c, v) == m.userPick(c)
    ensures forall k: nat :: !UserOffers(m, c, v) && Offers(m, c, v, k) && NoDefaultOffers(m, c, v, k) ==>
      Picked(m, c, v) == Some(m.role(c).defaults[k].member)
    ensures forall k: nat ::
      && !UserOffers(m, c, v) && NoDefaultOffers(m, c, v, |m.role(c).defaults|)
      && MemberSeen(m, c, v, k) && (forall j: nat :: j < k ==> !MemberSeen(m, c, v, j)) ==>
        Picked(m, c, v) == Some(m.role(c).members[k])
    ensures NothingOffered(m, c, v) ==> Picked(m, c, v) == None
  {
    hide Selectable, CanBeSeen, FirstDefault, FirstMember;
    var ds, members := m.role(c).defaults, m.role(c).members;
    forall i ensures CanBeSeen(m, i, v) <==> Selectable(m, i, v) { SeenIffSelectable(m, i, v); }
    forall k: nat | Offers(m, c, v, k) && NoDefaultOffers(m, c, v, k)
      ensures FirstDefault(m, ds, v) == Some(ds[k].member)
    {
      forall j: nat | j < k ensures !(IsMet(ds[j], v) && Selectable(m, ds[j].member, v)) {
        assert !Offers(m, c, v, j);
      }
      FirstDefaultAt(m, ds, v, k);
    }
    if NoDefaultOffers(m, c, v, |ds|) {
      forall j: nat | j < |ds| ensures !(IsMet(ds[j], v) && Selectable(m, ds[j].member, v)) {
        assert !Offers(m, c, v, j);
      }
      FirstDefaultAt(m, ds, v, |ds|);
    }
    forall k: nat | MemberSeen(m, c, v, k) && (forall j: nat :: j < k ==> !MemberSeen(m, c, v, j))
      ensures FirstMember(m, members, v) == Some(members[k])
    {
      forall j: nat | j < k ensures !Selectable(m, members[j], v) { assert !MemberSeen(m, c, v, j); }
      FirstMemberAt(m, members, v, k);
    }
    if forall k: nat :: !MemberSeen(m, c, v, k) {
      forall j: nat | j < |members| ensures !Selectable(m, members[j], v) { assert !MemberSeen(m, c, v, j); }
      FirstMemberAt(m, members, v, |members|);
    }
  }

  /** The tristate a choice would have if a member can be had: like a symbol without defaults. */
  function WouldBe(m: Model, c: Symbol, v: Valuation, shown: T.Tri, forced: T.Tri): T.Tri {
    if IsOff(m.g(c), v) || (shown == T.No && forced == T.No) then T.No
    else if m.u(c).isNew then OnlyTristate(c, forced)
    else OnlyTristate(c, T.Or(T.And(m.u(c).tri, shown), forced))
  }

  lemma WouldBeBase(m: Model, c: Symbol, v: Valuation, shown: T.Tri, forced: T.Tri)
    requires IsShown(m.g, c, v, shown) && IsForced(m.g, c, v, forced)
    ensures WouldBe(m, c, v, shown, forced) == Base(m, c, v)
  {
    hide S.Visible, S.Selected, IsShown, IsForced;
    ShownIff(m.g, c, v, shown);
    ForcedIff(m.g, c, v, forced);
  }

  /** A choice has the value it would have, unless that is y and nobody can be had with the choice on: then it is n.
      It has a member exactly if it is y, and that is the one preferred. */
  lemma ChoiceMeans(m: Model, c: Symbol, w: World, shown: T.Tri, forced: T.Tri)
    requires m.Valid() && m.role(c).Choice? && Solution(m, w)
    requires IsShown(m.g, c, w.Values(), shown) && IsForced(m.g, c, w.Values(), forced)
    ensures var t, on := WouldBe(m, c, w.Values(), shown, forced), Switched(w.Values(), c);
      if t != T.Yes then w.raw(c).tri == t && w.pick(c) == None
      else if NothingOffered(m, c, on) then w.raw(c).tri == T.No && w.pick(c) == None
      else w.raw(c).tri == T.Yes && w.pick(c) == Picked(m, c, on)
  {
    var on := Switched(w.Values(), c);
    assert m.ChoiceFits(c) && w.At(c) == ChoiceCell(m, c, w.Values());
    hide Picked, Base, WouldBe, NothingOffered, IsShown, IsForced;
    WouldBeBase(m, c, w.Values(), shown, forced);
    PickedMeans(m, c, on);
    if !NothingOffered(m, c, on) { SomebodyOffered(m, c, on); }
  }

  lemma SomebodyOffered(m: Model, c: Symbol, v: Valuation)
    requires m.Valid() && m.role(c).Choice? && !NothingOffered(m, c, v)
    ensures Picked(m, c, v).Some?
  {
    assert m.ChoiceFits(c);
    hide Picked, Selectable, CanBeSeen;
    PickedIffSelectable(m, c, v);
    forall i ensures CanBeSeen(m, i, v) <==> Selectable(m, i, v) { SeenIffSelectable(m, i, v); }
    if UserOffers(m, c, v) {
      assert m.IsMemberOf(m.userPick(c).value, c);
    } else if !NoDefaultOffers(m, c, v, |m.role(c).defaults|) {
      var k: nat :| k < |m.role(c).defaults| && Offers(m, c, v, k);
      assert m.role(c).defaults[k] in m.role(c).defaults;
    } else {
      var k: nat :| MemberSeen(m, c, v, k);
      assert m.role(c).members[k] in m.role(c).members;
    }
  }

  /** A member that is visible at y is y or n as it is picked or not. Otherwise it is n if it is deselected, its
      setting or default as far as m lets it if it is visible, and its default if it is not. */
  lemma MemberMeans(m: Model, i: Symbol, w: World, shown: T.Tri)
    requires m.Valid() && m.role(i).Member? && Solution(m, w) && IsShown(m.g, i, w.Values(), shown)
    ensures var v, ds, t := w.Values(), m.g(i).defaults, w.raw(i).tri;
      && (shown == T.Yes ==> t == if w.pick(m.role(i).choice) == Some(i) then T.Yes else T.No)
      && (shown != T.Yes && IsOff(m.g(i), v) ==> t == T.No)
      && (shown == T.Mod && !m.u(i).isNew ==> t == OnlyTristate(i, T.And(m.u(i).tri, T.Mod)))
      && (shown == T.Mod && m.u(i).isNew ==>
            && (NoneMet(ds, v) ==> t == T.No)
            && forall k: nat :: IsFirst(ds, v, k) ==> t == OnlyTristate(i, T.And(Eval(ds[k].value, v), T.Mod)))
      && (shown == T.No && !IsOff(m.g(i), v) ==>
            && (NoneMet(ds, v) ==> t == T.No)
            && forall k: nat :: IsFirst(ds, v, k) ==> t == OnlyTristate(i, Eval(ds[k].value, v)))
  {
    MemberHasTri(m, i, w);
    hide IsShown, S.Visible, S.FirstDefault, NoneMet, Eval;
    ShownIff(m.g, i, w.Values(), shown);
    FirstDefaultIs(m.g(i).defaults, w.Values());
    if IsOff(m.g(i), w.Values()) { DeselectedIsHidden(m.g, i, w.Values()); }
  }
}
