/** `werewolf_update`: a werewolf's sprite follows its form. */
module Werewolf {
  import opened World

  /** The sprite an entity carries after the update: 'C' in Human form, 'W' in Beast form. */
  function SpriteFor(d: CharacterData, sprite: char): (r: char)
    ensures d == CharacterData.Werewolf(WereForm.Human) ==> r == 'C'
    ensures d == CharacterData.Werewolf(WereForm.Beast) ==> r == 'W'
    ensures d.Other? ==> r == sprite
  {
    match d
    case Werewolf(form) => if form == WereForm.Human then 'C' else 'W'
    case Other => sprite
  }

  /** The form alone decides a werewolf's sprite, so a second update changes nothing. */
  lemma SpriteForIdempotent(d: CharacterData, sprite: char)
    ensures SpriteFor(d, SpriteFor(d, sprite)) == SpriteFor(d, sprite)
    ensures d.Werewolf? ==> forall other :: SpriteFor(d, other) == SpriteFor(d, sprite)
  {
  }

  /** The update over every entity: the data is read, never written. */
  method WerewolfUpdate(data: seq<CharacterData>, sprites: array<char>)
    requires |data| == sprites.Length
    modifies sprites
    ensures forall i :: 0 <= i < sprites.Length ==> sprites[i] == SpriteFor(data[i], old(sprites[i]))
  {
    var i := 0;
    while i < sprites.Length
      invariant 0 <= i <= sprites.Length
      invariant forall k :: 0 <= k < i ==> sprites[k] == SpriteFor(data[k], old(sprites[k]))
      invariant forall k :: i <= k < sprites.Length ==> sprites[k] == old(sprites[k])
    {
      sprites[i] := SpriteFor(data[i], sprites[i]);
      i := i + 1;
    }
  }
}
