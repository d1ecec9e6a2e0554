/**
 * `getFunctionClass`: the colour class a sentence card carries, chosen from
 * the sentence's function (its `currentFunction` override when present).
 */
module Styles {
  import opened Text
  import opened Types

  /** The spelling of a function in the source and in lesson files. */
  function FunctionName(f: SentenceFunction): string
  {
    match f
    case INTRO => "INTRO"
    case SEQ => "SEQ"
    case CAUSE_EFFECT => "CAUSE_EFFECT"
    case EXAMPLE_DETAIL => "EXAMPLE_DETAIL"
    case CONCLUSION => "CONCLUSION"
  }

  /** Whether `name` spells one of the five functions. */
  predicate IsFunctionName(name: string)
  {
    exists f: SentenceFunction {:trigger FunctionName(f)} :: FunctionName(f) == name
  }

  /**
   * `getFunctionClass`, over whatever string a lesson file supplies: the five
   * function names map to their classes, anything else to "function-none".
   */
  function FunctionClass(name: string): string
  {
    if name == "INTRO" then "function-intro"
    else if name == "SEQ" then "function-seq"
    else if name == "CAUSE_EFFECT" then "function-cause_effect"
    else if name == "EXAMPLE_DETAIL" then "function-example_detail"
    else if name == "CONCLUSION" then "function-conclusion"
    else "function-none"
  }

  /** The class of a sentence card: the class of `currentFunction || function`. */
  function SentenceClass(s: Sentence): (r: string)
    ensures s.currentFunction.Some? ==> r == "function-" + AsciiLower(FunctionName(s.currentFunction.value))
    ensures s.currentFunction.None? ==> r == "function-" + AsciiLower(FunctionName(s.func))
  {
    FunctionClassNaming(s.DisplayFunction());
    FunctionClass(FunctionName(s.DisplayFunction()))
  }

  // ---- Properties ----

  /** Lower-casing is determined character by character. */
  lemma LowerSpelled(s: string, t: string)
    requires |s| == |t|
    requires forall i :: 0 <= i < |s| ==> t[i] == if 'A' <= s[i] <= 'Z' then (s[i] as int + 32) as char else s[i]
    ensures AsciiLower(s) == t
  {
  }

  /** The lower-case spelling of each function name. */
  function LowerName(f: SentenceFunction): string
  {
    match f
    case INTRO => "intro"
    case SEQ => "seq"
    case CAUSE_EFFECT => "cause_effect"
    case EXAMPLE_DETAIL => "example_detail"
    case CONCLUSION => "conclusion"
  }

  /** `LowerName` is the lower-cased function name. */
  lemma LowerNameSpelled(f: SentenceFunction)
    ensures AsciiLower(FunctionName(f)) == LowerName(f)
  {
    LowerSpelled(FunctionName(f), LowerName(f));
  }

  /** Each function's class is "function-" followed by its `LowerName`. */
  lemma ClassIsLowerName(f: SentenceFunction)
    ensures FunctionClass(FunctionName(f)) == "function-" + LowerName(f)
  {
    match f
    case INTRO => assert "function-" + "intro" == "function-intro";
    case SEQ => assert "function-" + "seq" == "function-seq";
    case CAUSE_EFFECT => assert "function-" + "cause_effect" == "function-cause_effect";
    case EXAMPLE_DETAIL => assert "function-" + "example_detail" == "function-example_detail";
    case CONCLUSION => assert "function-" + "conclusion" == "function-conclusion";
  }

  /** Each function's class is "function-" followed by its name in lower case. */
  lemma FunctionClassNaming(f: SentenceFunction)
    ensures FunctionClass(FunctionName(f)) == "function-" + AsciiLower(FunctionName(f))
  {
    LowerNameSpelled(f);
    ClassIsLowerName(f);
  }

  /** The fallback class is used exactly for strings that are not function names. */
  lemma FunctionClassDefault(name: string)
    ensures FunctionClass(name) == "function-none" <==> !IsFunctionName(name)
  {
    if name == "INTRO" { assert FunctionName(INTRO) == name; }
    else if name == "SEQ" { assert FunctionName(SEQ) == name; }
    else if name == "CAUSE_EFFECT" { assert FunctionName(CAUSE_EFFECT) == name; }
    else if name == "EXAMPLE_DETAIL" { assert FunctionName(EXAMPLE_DETAIL) == name; }
    else if name == "CONCLUSION" { assert FunctionName(CONCLUSION) == name; }
  }

  /** Distinct functions get distinct classes, so the colour identifies the function. */
  lemma FunctionClassInjective(f: SentenceFunction, g: SentenceFunction)
    ensures FunctionClass(FunctionName(f)) == FunctionClass(FunctionName(g)) <==> f == g
  {
    FunctionClassNaming(f);
    FunctionClassNaming(g);
    if f != g {
      assert FunctionName(f) != FunctionName(g);
      assert |AsciiLower(FunctionName(f))| == |FunctionName(f)|;
      assert |FunctionName(f)| != |FunctionName(g)|;
      assert ("function-" + AsciiLower(FunctionName(f)))[9..] == AsciiLower(FunctionName(f));
      assert ("function-" + AsciiLower(FunctionName(g)))[9..] == AsciiLower(FunctionName(g));
    }
  }
}
