/** `Plane`: the holder the demo programs hand their command lines to. It
    stores the lines and wraps them in a fixed engraving header and
    footer. */
module Plane {

  datatype Plane = Plane(command: seq<string>)

  const Header: seq<string> := ["G17G21G90G54", "F30000", "G0 X0.000 Y0.000", "M4 S0"]

  const Footer: seq<string> := ["S0", "M5"]

  /** `setCommand`: the stored list becomes the given one. */
  function SetCommand(p: Plane, command: seq<string>): (q: Plane)
    ensures q.command == command
  {
    p.(command := command)
  }

  /** `builder`: header in front, footer behind, the stored lines kept in
      between unchanged. Unlike the converter's builder it does not clear
      the list first. */
  function Builder(p: Plane): (q: Plane)
    ensures |q.command| == |p.command| + 6
    ensures q.command[..4] == Header
    ensures q.command[4..|q.command| - 2] == p.command
    ensures q.command[|q.command| - 2..] == Footer
  {
    var lines := Header + p.command + Footer;
    assert lines[4..|lines| - 2] == p.command;
    Plane(lines)
  }

  /** Building twice wraps the wrapped list again: twelve extra lines, so
      the second call always changes the result. */
  lemma BuilderWrapsTwice(p: Plane)
    ensures |Builder(Builder(p)).command| == |p.command| + 12
    ensures Builder(Builder(p)) != Builder(p)
  {
  }
}
