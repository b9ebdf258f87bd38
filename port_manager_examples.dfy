/**
 * The address classifier of PortManager on the sample texts of the doc
 * comment above GetFamily (PortManager.cpp:515-526). Each lemma takes the
 * groups of the text as parameters, pins them with its requires, and states
 * both the glued text and its family. Where the code and the comment part
 * ways, the lemma states what the code does.
 */
module PortManagerExamples {
  import opened Uv
  import opened PortManager

  lemma Join3(a: string, b: string, c: string)
    ensures Join([a, b, c]) == a + "." + b + "." + c
  {
    JoinSnoc([a], b);
    assert [a] + [b] == [a, b];
    JoinSnoc([a, b], c);
    assert [a, b] + [c] == [a, b, c];
  }

  lemma Join4(a: string, b: string, c: string, d: string)
    ensures Join([a, b, c, d]) == a + "." + b + "." + c + "." + d
  {
    Join3(a, b, c);
    JoinSnoc([a, b, c], d);
    assert [a, b, c] + [d] == [a, b, c, d];
  }

  /** Four digit groups: the family JoinedFamily gives, spelled out for four groups. */
  lemma FourGroups(a: string, b: string, c: string, d: string)
    requires AllDigits(a) && AllDigits(b) && AllDigits(c) && AllDigits(d)
    ensures FamilyOf(Join([a, b, c, d])) ==
      if a != [] && b != [] && c != [] && GoodGroup(a) && GoodGroup(b) && GoodGroup(c) && GoodGroup(d)
      then AF_INET else Rejected
  {
    var gs := [a, b, c, d];
    assert gs[0] == a && gs[1] == b && gs[2] == c && gs[3] == d;
    if a != [] && b != [] && c != [] && GoodGroup(a) && GoodGroup(b) && GoodGroup(c) && GoodGroup(d) {
      assert GoodGroups(gs);
    }
    JoinedFamily(gs);
  }

  /** Three digit groups, likewise. */
  lemma ThreeGroups(a: string, b: string, c: string)
    requires AllDigits(a) && AllDigits(b) && AllDigits(c)
    ensures FamilyOf(Join([a, b, c])) ==
      if a != [] && b != [] && GoodGroup(a) && GoodGroup(b) && GoodGroup(c) then AF_INET6 else Rejected
  {
    var gs := [a, b, c];
    assert gs[0] == a && gs[1] == b && gs[2] == c;
    if a != [] && b != [] && GoodGroup(a) && GoodGroup(b) && GoodGroup(c) {
      assert GoodGroups(gs);
    }
    JoinedFamily(gs);
  }

  /** A group with one leading zero is accepted, although the doc comment calls "192.168.01.1" invalid. */
  lemma LeadingZeroAccepted(a: string, b: string, c: string, d: string)
    requires a == "192" && b == "168" && c == "01" && d == "1"
    ensures Join([a, b, c, d]) == "192.168.01.1"
    ensures FamilyOf(Join([a, b, c, d])) == AF_INET
  {
    assert Join([a, b, c, d]) == "192.168.01.1" by { Join4(a, b, c, d); }
    assert FamilyOf(Join([a, b, c, d])) == AF_INET by {
      ValueOfShort(a);
      ValueOfShort(b);
      ValueOfShort(c);
      FourGroups(a, b, c, d);
    }
  }

  /** Two leading zeros are rejected. */
  lemma DoubleZeroRejected(a: string, b: string, c: string, d: string)
    requires a == "00" && b == "1" && c == "1" && d == "1"
    ensures Join([a, b, c, d]) == "00.1.1.1"
    ensures FamilyOf(Join([a, b, c, d])) == Rejected
  {
    assert Join([a, b, c, d]) == "00.1.1.1" by { Join4(a, b, c, d); }
    assert FamilyOf(Join([a, b, c, d])) == Rejected by {
      assert AllDigits(a);
      FourGroups(a, b, c, d);
    }
  }

  /** A group above 255 is rejected. */
  lemma LargeGroupRejected(a: string, b: string, c: string, d: string)
    requires a == "256" && b == "1" && c == "1" && d == "1"
    ensures Join([a, b, c, d]) == "256.1.1.1"
    ensures FamilyOf(Join([a, b, c, d])) == Rejected
  {
    assert Join([a, b, c, d]) == "256.1.1.1" by { Join4(a, b, c, d); }
    assert FamilyOf(Join([a, b, c, d])) == Rejected by {
      ValueOfShort(a);
      FourGroups(a, b, c, d);
    }
  }

  /** Three groups are not rejected: the text is called IPv6. */
  lemma ThreeGroupsCalledIPv6(a: string, b: string, c: string)
    requires a == "1" && b == "2" && c == "3"
    ensures Join([a, b, c]) == "1.2.3"
    ensures FamilyOf(Join([a, b, c])) == AF_INET6
  {
    assert Join([a, b, c]) == "1.2.3" by { Join3(a, b, c); }
    assert FamilyOf(Join([a, b, c])) == AF_INET6 by {
      ValueOfShort(a);
      ValueOfShort(b);
      ValueOfShort(c);
      ThreeGroups(a, b, c);
    }
  }

  /**
   * A trailing dot makes an empty fourth group: the text is called IPv4,
   * although it is no dotted quad in the sense of RFC 3986.
   */
  lemma TrailingDotAccepted(a: string, b: string, c: string, d: string)
    requires a == "1" && b == "2" && c == "3" && d == ""
    ensures Join([a, b, c, d]) == "1.2.3."
    ensures FamilyOf(Join([a, b, c, d])) == AF_INET
    ensures !IsIPv4Address(Join([a, b, c, d]))
  {
    assert !IsIPv4Address(Join([a, b, c, d])) by {
      var gs := [a, b, c, d];
      forall j | 0 <= j < |gs| ensures '.' !in gs[j] {
        assert gs[j] == a || gs[j] == b || gs[j] == c || gs[j] == d;
      }
      SplitOfJoin(gs);
      assert !DecOctet(Split(Join(gs))[3]);
    }
    assert Join([a, b, c, d]) == "1.2.3." by { Join4(a, b, c, d); }
    assert FamilyOf(Join([a, b, c, d])) == AF_INET by {
      ValueOfShort(a);
      ValueOfShort(b);
      ValueOfShort(c);
      FourGroups(a, b, c, d);
    }
  }

  /** A space before and after four good groups gives 1. */
  lemma PaddedFourGroups(a: string, b: string, c: string, d: string)
    requires a != [] && b != [] && c != []
    requires GoodGroup(a) && GoodGroup(b) && GoodGroup(c) && GoodGroup(d)
    ensures FamilyOf(" " + Join([a, b, c, d]) + " ") == TrailingSpacesAccepted
  {
    var gs := [a, b, c, d];
    assert gs[0] == a && gs[1] == b && gs[2] == c && gs[3] == d;
    assert GoodGroups(gs);
    JoinedShape(gs);
    var body := Join(gs);
    TrailingSpacesGiveOne(body, " ");
    assert " " + body + " " == [' '] + (body + " ");
    LeadingSpaceIgnored(body + " ");
  }

  /**
   * Spaces around an address give 1, which NormalizeIp refuses, although the
   * doc comment calls a space-padded address valid.
   */
  lemma PaddedAddressRefused(a: string, b: string, c: string, d: string)
    requires a == "1" && b == "1" && c == "1" && d == "1"
    ensures " " + Join([a, b, c, d]) + " " == " 1.1.1.1 "
    ensures FamilyOf(" " + Join([a, b, c, d]) + " ") == TrailingSpacesAccepted
    ensures !IsInetFamily(FamilyOf(" " + Join([a, b, c, d]) + " "))
  {
    assert " " + Join([a, b, c, d]) + " " == " 1.1.1.1 " by { Join4(a, b, c, d); }
    assert FamilyOf(" " + Join([a, b, c, d]) + " ") == TrailingSpacesAccepted by {
      ValueOfShort(a);
      PaddedFourGroups(a, b, c, d);
    }
  }
}
