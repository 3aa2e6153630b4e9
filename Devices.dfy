/** The device registry: `DeviceInfo` and `get_devices` of
    uiautomatorstartall.cpp, which split the device-list argument on '/',
    trim each piece and keep the non-empty ones, in order. */
module Devices {
  import opened Whitespace

  /** The separator between device addresses in the device-list argument. */
  const Separator := '/'

  /** How many times `c` occurs in `s`. */
  function Count(c: char, s: string): nat {
    if s == [] then 0 else (if s[0] == c then 1 else 0) + Count(c, s[1..])
  }

  /** The pieces joined back together with the separator between them. */
  function Join(parts: seq<string>): string
    requires |parts| >= 1
  {
    if |parts| == 1 then parts[0] else parts[0] + [Separator] + Join(parts[1..])
  }

  /** The maximal separator-free pieces of `s`, left to right: one more
      piece than there are separators, and none of them holds a separator.
      Empty pieces arise between adjacent separators and at either end. */
  function SplitOn(s: string): (parts: seq<string>)
    ensures |parts| == Count(Separator, s) + 1
    ensures forall k :: 0 <= k < |parts| ==> Separator !in parts[k]
  {
    if s == [] then [[]]
    else
      var rest := SplitOn(s[1..]);
      if s[0] == Separator then [[]] + rest
      else [[s[0]] + rest[0]] + rest[1..]
  }

  /** The pieces `std::views::split(s, '/')` yields: none for an empty
      string (the view's begin and end coincide), otherwise `SplitOn(s)`,
      including the empty piece after a trailing separator. */
  function Segments(s: string): (segs: seq<string>)
    ensures |segs| <= Count(Separator, s) + 1
    ensures s == [] ==> segs == []
    ensures s != [] ==> segs == SplitOn(s)
  {
    if s == [] then [] else SplitOn(s)
  }

  /** Joining the pieces restores the string: splitting loses nothing. */
  lemma {:induction false} JoinSplitOn(s: string)
    ensures Join(SplitOn(s)) == s
  {
    if s != [] {
      var rest := SplitOn(s[1..]);
      JoinSplitOn(s[1..]);
      if s[0] == Separator {
        assert SplitOn(s)[1..] == rest;
      } else {
        var parts := SplitOn(s);
        assert parts[0] == [s[0]] + rest[0];
        if |rest| > 1 {
          assert parts[1..] == rest[1..];
          assert Join(parts) == [s[0]] + rest[0] + [Separator] + Join(rest[1..]);
        }
      }
      assert s == [s[0]] + s[1..];
    }
  }

  /** Splitting a separator-free prefix `w` in front of `t` extends the
      first piece of `t` by `w`. */
  lemma {:induction false} SplitOnPrefix(w: string, t: string)
    requires Separator !in w
    ensures SplitOn(w + t) == [w + SplitOn(t)[0]] + SplitOn(t)[1..]
  {
    if w != [] {
      SplitOnPrefix(w[1..], t);
      assert (w + t)[1..] == w[1..] + t;
      assert (w + t)[0] == w[0];
      assert [w[0]] + (w[1..] + SplitOn(t)[0]) == w + SplitOn(t)[0];
    } else {
      var parts := SplitOn(t);
      assert w + t == t && w + parts[0] == parts[0];
      assert parts == [parts[0]] + parts[1..];
    }
  }

  /** Splitting undoes joining separator-free pieces. */
  lemma {:induction false} SplitOnJoin(parts: seq<string>)
    requires |parts| >= 1
    requires forall k :: 0 <= k < |parts| ==> Separator !in parts[k]
    ensures SplitOn(Join(parts)) == parts
  {
    if |parts| == 1 {
      SplitOnPrefix(parts[0], []);
      assert parts[0] + [] == parts[0];
    } else {
      var tail := Join(parts[1..]);
      SplitOnJoin(parts[1..]);
      assert Join(parts) == parts[0] + ([Separator] + tail);
      SplitOnPrefix(parts[0], [Separator] + tail);
      assert ([Separator] + tail)[1..] == tail;
      assert SplitOn([Separator] + tail) == [[]] + SplitOn(tail);
      assert parts[0] + [] == parts[0];
      assert parts == [parts[0]] + parts[1..];
    }
  }

  /** The trimmed pieces that are not empty, in their original order,
      repeats included. */
  function KeptNames(segs: seq<string>): (names: seq<string>)
    ensures |names| <= |segs|
  {
    if segs == [] then [] else Kept(segs[0]) + KeptNames(segs[1..])
  }

  /** The name one piece contributes: its trim, unless that is empty. */
  function Kept(seg: string): (names: seq<string>)
    ensures |names| <= 1
  {
    var name := Trim(seg);
    if name != [] then [name] else []
  }

  /** The names `get_devices` registers for the device-list argument `s`:
      none for an empty argument, and at most one per separator plus one. */
  function DeviceNames(s: string): (names: seq<string>)
    ensures s == [] ==> names == []
    ensures |names| <= Count(Separator, s) + 1
  {
    KeptNames(Segments(s))
  }

  /** Keeping names distributes over concatenation: every piece contributes
      on its own, in place, whatever else is in the list. */
  lemma {:induction false} KeptNamesAppend(a: seq<string>, b: seq<string>)
    ensures KeptNames(a + b) == KeptNames(a) + KeptNames(b)
  {
    if a != [] {
      KeptNamesAppend(a[1..], b);
      assert (a + b)[0] == a[0];
      assert (a + b)[1..] == a[1..] + b;
      assert KeptNames(a + b) == Kept(a[0]) + KeptNames(a[1..] + b);
    } else {
      assert a + b == b;
    }
  }

  /** Adding one piece at the end adds its name, if any, at the end. */
  lemma KeptNamesOne(segs: seq<string>, seg: string)
    ensures KeptNames(segs + [seg]) == KeptNames(segs) + Kept(seg)
  {
    KeptNamesAppend(segs, [seg]);
    assert KeptNames([seg]) == Kept(seg) + KeptNames([]);
  }

  /** Looking at one more piece adds its name, if any, at the end. */
  lemma KeptNamesStep(segs: seq<string>, i: nat)
    requires i < |segs|
    ensures KeptNames(segs[..i + 1]) == KeptNames(segs[..i]) + Kept(segs[i])
  {
    assert segs[..i + 1] == segs[..i] + [segs[i]];
    KeptNamesOne(segs[..i], segs[i]);
  }

  /** A name is kept exactly when it is not empty and is the trim of one of
      the pieces. */
  lemma {:induction false} KeptNamesMember(segs: seq<string>, name: string)
    ensures name in KeptNames(segs) <==>
      name != [] && exists j :: 0 <= j < |segs| && Trim(segs[j]) == name
  {
    if segs != [] {
      KeptNamesMember(segs[1..], name);
      if exists j :: 0 <= j < |segs[1..]| && Trim(segs[1..][j]) == name {
        var j :| 0 <= j < |segs[1..]| && Trim(segs[1..][j]) == name;
        assert Trim(segs[j + 1]) == name;
      }
      if exists j :: 0 <= j < |segs| && Trim(segs[j]) == name {
        var j :| 0 <= j < |segs| && Trim(segs[j]) == name;
        if j > 0 {
          assert Trim(segs[1..][j - 1]) == name;
        }
      }
    }
  }

  /** Every kept name is non-empty, has whitespace at neither end, and holds
      no separator when the pieces hold none. */
  lemma {:induction false} KeptNamesWellFormed(segs: seq<string>)
    requires forall k :: 0 <= k < |segs| ==> Separator !in segs[k]
    ensures forall name <- KeptNames(segs) ::
      name != [] && !IsSpace(name[0]) && !IsSpace(name[|name| - 1]) &&
      Separator !in name && Trim(name) == name
  {
    if segs != [] {
      KeptNamesWellFormed(segs[1..]);
      TrimKeepsOut(segs[0], Separator);
      TrimIdempotent(segs[0]);
    }
  }

  /** Padding, a blank piece and a trailing separator around two addresses
      leave just the two addresses, in order. */
  lemma DeviceNamesPadded(a: string, b: string)
    requires a != [] && !IsSpace(a[0]) && !IsSpace(a[|a| - 1]) && Separator !in a
    requires b != [] && !IsSpace(b[0]) && !IsSpace(b[|b| - 1]) && Separator !in b
    ensures DeviceNames(" " + a + " / /" + b + "/") == [a, b]
  {
    var s := " " + a + " / /" + b + "/";
    var parts := [" " + a + " ", " ", b, ""];
    assert Join(parts) == s by {
      assert Join(parts[3..]) == "";
      assert Join(parts[2..]) == b + "/" + "";
      assert Join(parts[1..]) == " " + "/" + (b + "/" + "");
    }
    SplitOnJoin(parts);
    assert Segments(s) == parts;
    TrimPadding(" ", a, " ");
    TrimPadding(" ", [], []);
    TrimPadding([], b, []);
    assert " " + [] + [] == " " && [] + b + [] == b;
    assert KeptNames(parts[3..]) == [] by {
      assert parts[3..][1..] == [];
    }
    assert KeptNames(parts[2..]) == [b] by {
      assert parts[2..][1..] == parts[3..];
    }
    assert KeptNames(parts[1..]) == [b] by {
      assert parts[1..][1..] == parts[2..];
    }
  }

  /** The device list " 127.0.0.1:5555 / /127.0.0.1:5570/" registers the
      two addresses "127.0.0.1:5555" and "127.0.0.1:5570". */
  lemma DeviceNamesExample()
    ensures DeviceNames(" " + "127.0.0.1:5555" + " / /" + "127.0.0.1:5570" + "/") ==
      ["127.0.0.1:5555", "127.0.0.1:5570"]
  {
    var a, b := "127.0.0.1:5555", "127.0.0.1:5570";
    assert Separator !in a && Separator !in b;
    DeviceNamesPadded(a, b);
  }

  /** What `get_devices` promises about its result: trimmed, non-empty,
      separator-free names, at most one per separator plus one. */
  lemma DeviceNamesWellFormed(s: string)
    ensures |DeviceNames(s)| <= Count(Separator, s) + 1
    ensures forall name <- DeviceNames(s) ::
      name != [] && !IsSpace(name[0]) && !IsSpace(name[|name| - 1]) &&
      Separator !in name && Trim(name) == name
  {
    KeptNamesWellFormed(Segments(s));
  }

  /** One registered device: its address and the flag that says no worker
      is running for it. The C++ record holds the flag behind a
      `std::unique_ptr<std::atomic<bool>>`; a worker gets the record by
      reference, so here the record is an object and the flag its field. */
  class DeviceInfo {
    const name: string
    var done: bool

    constructor (name: string)
      ensures this.name == name && done
    {
      this.name := name;
      done := true;
    }
  }

  /** The names of the records, in registry order. */
  function Names(devices: seq<DeviceInfo>): (names: seq<string>)
    ensures |names| == |devices|
    ensures forall k :: 0 <= k < |devices| ==> names[k] == devices[k].name
  {
    seq(|devices|, k requires 0 <= k < |devices| => devices[k].name)
  }

  /** The stripping half of one iteration of `get_devices`: strip the piece
      at `i` in place and keep it when something is left. What it returns
      is exactly what that piece adds to the registered names. */
  method StripPiece(segs: seq<string>, i: nat) returns (kept: seq<string>)
    requires i < |segs|
    ensures |kept| <= 1
    ensures KeptNames(segs[..i + 1]) == KeptNames(segs[..i]) + kept
  {
    KeptNamesStep(segs, i);
    var name := StripSpacesInPlace(segs[i]);
    kept := if |name| > 0 then [name] else [];
  }

  /** `get_devices`: for each piece of the split, strip it and, when
      something is left, append a new record with its flag set. Every
      record is a new object of its own, even for a repeated address. */
  method GetDevices(s: string) returns (devices: seq<DeviceInfo>)
    ensures |devices| == |DeviceNames(s)|
    ensures forall k :: 0 <= k < |devices| ==> devices[k].name == DeviceNames(s)[k]
    ensures forall k :: 0 <= k < |devices| ==> fresh(devices[k])
    ensures forall d <- devices :: d.done
    ensures forall p, q :: 0 <= p < q < |devices| ==> devices[p] != devices[q]
  {
    devices := [];
    var segs := Segments(s);
    ghost var names: seq<string> := [];
    var i: nat := 0;
    while i < |segs|
      invariant i <= |segs|
      invariant names == KeptNames(segs[..i])
      invariant |devices| == |names|
      invariant forall k :: 0 <= k < |devices| ==> devices[k].name == names[k]
      invariant forall k :: 0 <= k < |devices| ==> fresh(devices[k])
      invariant forall d <- devices :: d.done
      invariant forall p, q :: 0 <= p < q < |devices| ==> devices[p] != devices[q]
    {
      var kept := StripPiece(segs, i);
      names := names + kept;
      if |kept| > 0 {
        var d := new DeviceInfo(kept[0]);
        devices := devices + [d];
      }
      i := i + 1;
    }
    assert segs[..i] == segs;
  }
}
