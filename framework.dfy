/** `is_vue_page` and the React indicators that `fetch_page` uses to decide
    whether a site needs the headless browser. */
module Framework {
  import opened Strings

  /** The expressions of `is_vue_page`; none uses a special character other
      than an escaped dot, so each is the literal shown. */
  const VueFingerprints: seq<string> := [
    "__vue__", "data-v-", "_v-", "vue.min.js", "vue.global.prod.js",
    "__vue_app__", "__VUE__", "@vue/runtime-core", "runtime-dom",
    "Vue.config", "vue-devtools", "id=\"app\""
  ]

  /** `REACT_INDICATORS` */
  const ReactIndicators: seq<string> := [
    "id=\"root\"", "id='root'", "[data-reactroot]", "[data-reactid]", "[data-react-root]", "react"
  ]

  /** `is_vue_page`: some fingerprint occurs in the page, ignoring the case of
      ASCII letters (`re.IGNORECASE`). */
  predicate IsVuePage(html: string)
  {
    exists k :: 0 <= k < |VueFingerprints| && Contains(Lower(html), Lower(VueFingerprints[k]))
  }

  /** `any(ind in content for ind in REACT_INDICATORS)`: case-sensitive. */
  predicate IsReactPage(html: string)
  {
    ContainsAny(html, ReactIndicators)
  }

  /** The Vue check does not see letter case: a page and its lower-cased copy
      are classified alike. */
  lemma VueIgnoresCase(html: string)
    ensures IsVuePage(Lower(html)) == IsVuePage(html)
  {
    LowerIsLower(html);
  }

  /** Three of the React indicators contain the last one, `react`, so the check
      comes down to three substrings. */
  lemma ReactIndicatorsReduce(html: string)
    ensures IsReactPage(html)
        <==> Contains(html, "id=\"root\"") || Contains(html, "id='root'") || Contains(html, "react")
  {
    assert ReactIndicators[5] == "react";
    if IsReactPage(html) {
      var k :| 0 <= k < |ReactIndicators| && Contains(html, ReactIndicators[k]);
      if k == 2 {
        assert "[data-reactroot]"[6..11] == "react";
        ContainsAt("[data-reactroot]", "react", 6);
        ContainsTransitive(html, "[data-reactroot]", "react");
      } else if k == 3 {
        assert "[data-reactid]"[6..11] == "react";
        ContainsAt("[data-reactid]", "react", 6);
        ContainsTransitive(html, "[data-reactid]", "react");
      } else if k == 4 {
        assert "[data-react-root]"[6..11] == "react";
        ContainsAt("[data-react-root]", "react", 6);
        ContainsTransitive(html, "[data-react-root]", "react");
      }
    } else {
      assert !Contains(html, ReactIndicators[0]);
      assert !Contains(html, ReactIndicators[1]);
      assert !Contains(html, ReactIndicators[5]);
    }
  }

  /** The React check is case-sensitive: a page that says only `React` is not
      recognised. */
  lemma ReactIsCaseSensitive()
    ensures !IsReactPage("React")
  {
    ReactIndicatorsReduce("React");
    assert "React"[..5][0] != "react"[0];
    assert !StartsWith("React", "react");
    assert !Contains("eact", "react");
    assert !Contains("React", "react");
    assert !Contains("React", "id=\"root\"");
    assert !Contains("React", "id='root'");
  }
}
