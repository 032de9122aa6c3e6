/** The reply of the slash command in yakusoku/modules/slash/main.py: the
    sender's mention, the action, the target's mention, then the rest of the
    command, closed by " !". The mentions are plain strings here; building
    them from Telegram users is not part of this model. */
module SlashMain {

  import SlashProcess

  /** `get_reply`: with a second part it goes after the target; without one,
      了 is added to the action unless it already has one. */
  function GetReply(first: string, second: string, sender: string, target: string): (r: string)
    ensures second != [] ==> r == sender + " " + first + " " + target + " " + second + " !"
    ensures second == [] ==> r == sender + " " + SlashProcess.CompleteUl(first) + " " + target + " !"
  {
    if second != [] then sender + " " + first + " " + target + " " + second + " !"
    else if '了' in first then sender + " " + first + " " + target + " !"
    else sender + " " + first + "了" + " " + target + " !"
  }

  /** Every reply opens with the sender's mention and a space, and closes
      with " !". */
  lemma ReplyFrame(first: string, second: string, sender: string, target: string)
    ensures |GetReply(first, second, sender, target)| >= |sender| + 3
    ensures GetReply(first, second, sender, target)[..|sender| + 1] == sender + " "
    ensures GetReply(first, second, sender, target)[|GetReply(first, second, sender, target)| - 2..] == " !"
  {
    var r := GetReply(first, second, sender, target);
    var mid := if second != [] then first + " " + target + " " + second
               else SlashProcess.CompleteUl(first) + " " + target;
    assert r == (sender + " ") + mid + " !";
  }

  /** Without a second part the reply always names a finished action. */
  lemma NoSecondHasUl(first: string, sender: string, target: string)
    ensures '了' in GetReply(first, "", sender, target)
  {
    var r := GetReply(first, "", sender, target);
    var u := SlashProcess.CompleteUl(first);
    var i :| 0 <= i < |u| && u[i] == '了';
    assert r == (sender + " ") + u + (" " + target + " !");
    assert r[|sender| + 1 + i] == '了';
  }
}
